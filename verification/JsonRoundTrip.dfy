/**
 typescript/src/gen/google/protobuf/struct.ts: decoding what was encoded gives the value back,
 at exactly the end of the frame, up to exactly the recursion limit.
 */
module JsonRoundTrip {
  import opened Wrappers
  import opened BitStrings
  import opened Wire
  import opened JsonValues

  /** Every entry but one under the key "__proto__" and one whose value is undefined. */
  predicate Survives(f: Field) {
    f.key != [95, 95, 112, 114, 111, 116, 111, 95, 95] && !f.value.Undefined?
  }

  lemma KeptSurvives(f: Field)
    ensures Kept(f) <==> Survives(f)
  {}

  /** The value without the entries that never reach the wire: undefined values and "__proto__". */
  function Strip(v: Json): Json
    decreases v, 1
  {
    match v
    case List(items) => List(StripItems(items))
    case Object(fields) => Object(StripFields(fields))
    case _ => v
  }

  function StripItems(items: seq<Json>): seq<Json>
    decreases items, 0
  {
    if items == [] then [] else [Strip(items[0])] + StripItems(items[1..])
  }

  function StripFields(fields: seq<Field>): seq<Field>
    decreases fields, 0
  {
    if fields == [] then []
    else (if Survives(fields[0]) then [Field(fields[0].key, Strip(fields[0].value))] else []) + StripFields(fields[1..])
  }

  /** How many nested frames the decoder enters. */
  function Cost(v: Json): (c: nat)
    ensures c >= 1
    decreases v, 1
  {
    match v
    case List(items) => 2 + ItemsCost(items)
    case Object(fields) => 2 + FieldsCost(fields)
    case _ => 1
  }

  function ItemsCost(items: seq<Json>): nat
    decreases items, 0
  {
    if items == [] then 0 else Max(Cost(items[0]), ItemsCost(items[1..]))
  }

  function FieldsCost(fields: seq<Field>): nat
    decreases fields, 0
  {
    if fields == [] then 0
    else Max(if Survives(fields[0]) then 1 + Cost(fields[0].value) else 0, FieldsCost(fields[1..]))
  }

  function Max(a: nat, b: nat): nat {
    if a >= b then a else b
  }

  /** Success with everything consumed up to the tail, or the recursion error. */
  function Outcome<T>(depth: nat, cost: nat, value: T, tail: Bytes): Reading<T> {
    if depth + cost <= 100 then Ok(Got(value, tail)) else Err(RecursionLimit)
  }

  // Tags.

  lemma TagReads(tag: Byte, rest: Bytes)
    requires tag < 128
    ensures ReadUint32([tag] + rest) == Ok(Got(tag, rest))
  {
    assert Varint(tag) == [tag];
    Uint32ReadsBack(tag, rest);
  }

  /** A frame made of a single member. */
  lemma OneMember(tag: Byte, payload: Bytes, tail: Bytes, depth: nat, m: ValueMsg)
    requires depth <= LIMIT && tag < 128 && KnownValueTag(tag)
    requires ValueMember(payload + tail, tag, depth, EMPTY) in {Ok(Got(m, tail)), Err(RecursionLimit)}
    ensures ValueLoop([tag] + payload + tail, 1 + |payload|, depth, EMPTY)
         == ValueMember(payload + tail, tag, depth, EMPTY)
  {
    hide ValueMember, ReadUint32, KnownValueTag;
    ConcatAssoc([tag], payload, tail);
    TagReads(tag, payload + tail);
    var r := [tag] + payload + tail;
    ValueLoopStep(r, 1 + |payload|, depth, EMPTY, tag, payload + tail);
    if ValueMember(payload + tail, tag, depth, EMPTY).Ok? {
      ValueLoopEnd(tail, depth, m);
    }
  }

  lemma ValueLoopStep(r: Bytes, left: int, depth: nat, m: ValueMsg, tag: nat, rest: Bytes)
    requires depth <= LIMIT && left > 0 && KnownValueTag(tag)
    requires ReadUint32(r) == Ok(Got(tag, rest))
    ensures ValueLoop(r, left, depth, m)
         == match ValueMember(rest, tag, depth, m)
            case Err(e) => Err(e)
            case Ok(g) => ValueLoop(g.rest, left - (|r| - |g.rest|), depth, g.value)
  {
    hide ValueMember, ReadUint32, KnownValueTag;
  }

  lemma ValueLoopEnd(r: Bytes, depth: nat, m: ValueMsg)
    requires depth <= LIMIT
    ensures ValueLoop(r, 0, depth, m) == Ok(Got(m, r))
  {}

  // Each kind of value.

  lemma {:induction false} ValueDecodes(v: Json, tail: Bytes, depth: nat)
    requires WellFormed(v) && Encodable(v)
    ensures DecodeValue(ValueBytes(v) + tail, |ValueBytes(v)|, depth)
         == Outcome(depth, Cost(v), Wrap(Strip(v)), tail)
    decreases v, 1
  {
    hide ValueLoop, DecodeList, DecodeStruct, Varint;
    if depth < LIMIT {
      match v
      case Undefined =>
        assert ValueBytes(v) + tail == tail;
        ValueLoopEnd(tail, depth + 1, EMPTY);
      case Object(fields) =>
        StructMemberDecodes(fields, tail, depth + 1);
        OneMember(42, Frame(StructBytes(fields)), tail, depth + 1, EMPTY.(structValue := Some(StripFields(fields))));
      case List(items) =>
        ListMemberDecodes(items, tail, depth + 1);
        OneMember(50, Frame(ListBytes(items)), tail, depth + 1, EMPTY.(listValue := Some(StripItems(items))));
      case _ =>
        ScalarDecodes(v, tail, depth + 1);
    }
  }

  lemma ScalarDecodes(v: Json, tail: Bytes, depth: nat)
    requires WellFormed(v) && Encodable(v) && depth <= LIMIT
    requires !v.Undefined? && !v.Object? && !v.List?
    ensures ValueLoop(ValueBytes(v) + tail, |ValueBytes(v)|, depth, EMPTY) == Ok(Got(Wrap(v), tail))
  {
    hide ValueLoop, ReadUint32, ReadBytes, ReadFixed64, ReadBool, Varint;
    match v
    case Null =>
      Uint32ReadsBack(0, tail);
      OneMember(8, Varint(0), tail, depth, Wrap(v));
    case Number(n) =>
      Fixed64ReadsBack(n, tail);
      OneMember(17, LittleEndian(n, 8), tail, depth, Wrap(v));
    case Text(t) =>
      FrameReadsBack(t, tail);
      OneMember(26, Frame(t), tail, depth, Wrap(v));
    case Bool(b) =>
      BoolReadsBack(b, tail);
      OneMember(32, [if b then 1 else 0], tail, depth, Wrap(v));
  }

  lemma {:induction false} StructMemberDecodes(fields: seq<Field>, tail: Bytes, depth: nat)
    requires WellFormed(Object(fields)) && Encodable(Object(fields)) && depth <= LIMIT
    ensures ValueMember(Frame(StructBytes(fields)) + tail, 42, depth, EMPTY)
         == Outcome(depth, 1 + FieldsCost(fields), EMPTY.(structValue := Some(StripFields(fields))), tail)
    decreases fields, 1
  {
    assert AllNew(fields, []);
    hide StructLoop, Frame, ReadUint32;
    FrameReadsBack(StructBytes(fields), tail);
    if depth < LIMIT {
      StructDecodes(fields, tail, depth + 1, []);
      assert [] + StripFields(fields) == StripFields(fields);
    }
  }

  lemma {:induction false} ListMemberDecodes(items: seq<Json>, tail: Bytes, depth: nat)
    requires WellFormed(List(items)) && Encodable(List(items)) && depth <= LIMIT
    ensures ValueMember(Frame(ListBytes(items)) + tail, 50, depth, EMPTY)
         == Outcome(depth, 1 + ItemsCost(items), EMPTY.(listValue := Some(StripItems(items))), tail)
    decreases items, 1
  {
    hide ListLoop, Frame, ReadUint32;
    FrameReadsBack(ListBytes(items), tail);
    if depth < LIMIT {
      ListDecodes(items, tail, depth + 1, []);
      assert [] + StripItems(items) == StripItems(items);
    }
  }

  // Lists.

  lemma ListLoopStep(r: Bytes, left: int, depth: nat, acc: seq<Json>, rest: Bytes)
    requires depth <= LIMIT && left > 0 && ReadUint32(r) == Ok(Got(10, rest))
    ensures ListLoop(r, left, depth, acc)
         == match ListMember(rest, 10, depth, acc)
            case Err(e) => Err(e)
            case Ok(g) => ListLoop(g.rest, left - (|r| - |g.rest|), depth, g.value)
  {
    hide ListMember, ReadUint32;
  }

  lemma ListLoopEnd(r: Bytes, depth: nat, acc: seq<Json>)
    requires depth <= LIMIT
    ensures ListLoop(r, 0, depth, acc) == Ok(Got(acc, r))
  {}

  lemma WrapUnwrap(v: Json)
    ensures Unwrap(Wrap(v)) == v
  {}

  lemma {:induction false} ItemDecodes(item: Json, more: Bytes, depth: nat, acc: seq<Json>)
    requires WellFormed(item) && Encodable(item) && |ValueBytes(item)| < UINT32 && depth <= LIMIT
    ensures ListMember(Frame(ValueBytes(item)) + more, 10, depth, acc)
         == Outcome(depth, Cost(item), acc + [Strip(item)], more)
    decreases item, 2
  {
    FrameReadsBack(ValueBytes(item), more);
    ValueDecodes(item, more, depth);
    WrapUnwrap(Strip(item));
    hide DecodeValue, Frame, ReadUint32, ValueBytes, Wrap, Unwrap, Strip, Cost;
  }

  lemma {:induction false} ListDecodes(items: seq<Json>, tail: Bytes, depth: nat, acc: seq<Json>)
    requires (forall i :: 0 <= i < |items| ==> WellFormed(items[i])) && ListEncodable(items) && depth <= LIMIT
    ensures ListLoop(ListBytes(items) + tail, |ListBytes(items)|, depth, acc)
         == Outcome(depth, ItemsCost(items), acc + StripItems(items), tail)
    decreases items, 0
  {
    hide ListLoop, ListMember, Frame, ReadUint32, ValueBytes, Strip, Cost, WellFormed, Encodable;
    if items == [] {
      assert ListBytes(items) + tail == tail && acc + StripItems(items) == acc;
      ListLoopEnd(tail, depth, acc);
    } else {
      var item, others := items[0], items[1..];
      var frame, rest := Frame(ValueBytes(item)), ListBytes(others);
      var r := ListBytes(items) + tail;
      assert r == [10] + (frame + (rest + tail));
      TagReads(10, frame + (rest + tail));
      ListLoopStep(r, |ListBytes(items)|, depth, acc, frame + (rest + tail));
      ItemDecodes(item, rest + tail, depth, acc);
      ListDecodes(others, tail, depth, acc + [Strip(item)]);
      ConcatAssoc(acc, [Strip(item)], StripItems(others));
    }
  }

  // Structs.

  lemma StructLoopStep(r: Bytes, left: int, depth: nat, acc: seq<Field>, rest: Bytes)
    requires depth <= LIMIT && left > 0 && ReadUint32(r) == Ok(Got(10, rest))
    ensures StructLoop(r, left, depth, acc)
         == match StructMember(rest, 10, depth, acc)
            case Err(e) => Err(e)
            case Ok(g) => StructLoop(g.rest, left - (|r| - |g.rest|), depth, g.value)
  {
    hide StructMember, ReadUint32;
  }

  lemma StructLoopEnd(r: Bytes, depth: nat, acc: seq<Field>)
    requires depth <= LIMIT
    ensures StructLoop(r, 0, depth, acc) == Ok(Got(acc, r))
  {}

  lemma EntryLoopStep(r: Bytes, left: int, depth: nat, f: Field, tag: nat, rest: Bytes)
    requires depth <= LIMIT && left > 0 && tag in {10, 18} && ReadUint32(r) == Ok(Got(tag, rest))
    ensures EntryLoop(r, left, depth, f)
         == match EntryMember(rest, tag, depth, f)
            case Err(e) => Err(e)
            case Ok(g) => EntryLoop(g.rest, left - (|r| - |g.rest|), depth, g.value)
  {
    hide EntryMember, ReadUint32;
  }

  lemma EntryLoopEnd(r: Bytes, depth: nat, f: Field)
    requires depth <= LIMIT
    ensures EntryLoop(r, 0, depth, f) == Ok(Got(f, r))
  {}

  lemma {:induction false} EntryValueDecodes(v: Json, key: Bytes, tail: Bytes, depth: nat)
    requires WellFormed(v) && Encodable(v) && |ValueBytes(v)| < UINT32 && depth <= LIMIT
    ensures var body := [18] + Frame(ValueBytes(v));
            EntryLoop(body + tail, |body|, depth, Field(key, Undefined))
            == Outcome(depth, Cost(v), Field(key, Strip(v)), tail)
    decreases v, 2
  {
    var frame := Frame(ValueBytes(v));
    var body := [18] + frame;
    ConcatAssoc([18], frame, tail);
    TagReads(18, frame + tail);
    hide EntryLoop, ReadUint32;
    EntryLoopStep(body + tail, |body|, depth, Field(key, Undefined), 18, frame + tail);
    FrameReadsBack(ValueBytes(v), tail);
    ValueDecodes(v, tail, depth);
    WrapUnwrap(Strip(v));
    EntryLoopEnd(tail, depth, Field(key, Strip(v)));
    hide DecodeValue, Frame, ValueBytes, Wrap, Unwrap, Strip, Cost;
  }

  lemma EntryKeyDecodes(key: Bytes, more: Bytes, left: nat, depth: nat)
    requires |key| < UINT32 && depth <= LIMIT
    ensures var body := [10] + Frame(key);
            EntryLoop(body + more, |body| + left, depth, NO_ENTRY)
            == EntryLoop(more, left, depth, Field(key, Undefined))
  {
    var frame := Frame(key);
    var body := [10] + frame;
    ConcatAssoc([10], frame, more);
    TagReads(10, frame + more);
    hide EntryLoop, ReadUint32;
    EntryLoopStep(body + more, |body| + left, depth, NO_ENTRY, 10, frame + more);
    FrameReadsBack(key, more);
    hide Frame;
  }

  function ValueMemberBytes(v: Json): Bytes {
    [18] + Frame(ValueBytes(v))
  }

  /** A key member, absent when the key is empty, and a value member. */
  lemma EntryShape(f: Field)
    requires Kept(f)
    ensures EntryBytes(f)
         == if f.key == [] then ValueMemberBytes(f.value) else [10] + Frame(f.key) + ValueMemberBytes(f.value)
  {
    hide Frame, ValueBytes;
  }

  lemma {:induction false} EntryBodyDecodes(f: Field, tail: Bytes, depth: nat)
    requires WellFormed(f.value) && EntryEncodable(f) && Kept(f) && depth <= LIMIT
    ensures EntryLoop(EntryBytes(f) + tail, |EntryBytes(f)|, depth, NO_ENTRY)
         == Outcome(depth, Cost(f.value), Field(f.key, Strip(f.value)), tail)
    decreases f, 1
  {
    EntryShape(f);
    EntryValueDecodes(f.value, f.key, tail, depth);
    hide EntryLoop, Frame, EntryBytes, ValueBytes, Strip, Cost, WellFormed, Encodable;
    var value := ValueMemberBytes(f.value);
    if f.key != [] {
      EntryKeyDecodes(f.key, value + tail, |value|, depth);
      ConcatAssoc([10] + Frame(f.key), value, tail);
    }
  }

  lemma {:induction false} EntryDecodes(f: Field, tail: Bytes, depth: nat)
    requires WellFormed(f.value) && EntryEncodable(f) && Kept(f)
    ensures DecodeEntry(EntryBytes(f) + tail, |EntryBytes(f)|, depth)
         == Outcome(depth, 1 + Cost(f.value), Field(f.key, Strip(f.value)), tail)
    decreases f, 2
  {
    hide EntryLoop, Frame, EntryBytes, Strip, Cost, WellFormed, EntryEncodable, Kept;
    if depth < LIMIT {
      EntryBodyDecodes(f, tail, depth + 1);
    }
  }

  predicate KeyIn(key: Bytes, fields: seq<Field>) {
    exists i :: 0 <= i < |fields| && fields[i].key == key
  }

  lemma {:induction false} PutAppends(acc: seq<Field>, f: Field)
    requires Kept(f) && !KeyIn(f.key, acc)
    ensures Put(acc, f) == acc + [f]
  {
    if acc != [] {
      assert acc[0].key != f.key;
      assert !KeyIn(f.key, acc[1..]) by {
        forall i | 0 <= i < |acc[1..]| ensures acc[1..][i].key != f.key { assert acc[1..][i] == acc[i + 1]; }
      }
      PutAppends(acc[1..], f);
    }
  }

  lemma {:induction false} FieldDecodes(f: Field, more: Bytes, depth: nat, acc: seq<Field>)
    requires WellFormed(f.value) && EntryEncodable(f) && |EntryBytes(f)| < UINT32 && depth <= LIMIT
    requires Kept(f) && !KeyIn(f.key, acc)
    ensures StructMember(Frame(EntryBytes(f)) + more, 10, depth, acc)
         == Outcome(depth, 1 + Cost(f.value), acc + [Field(f.key, Strip(f.value))], more)
    decreases f, 3
  {
    FrameReadsBack(EntryBytes(f), more);
    EntryDecodes(f, more, depth);
    StripKeeps(f.value);
    PutAppends(acc, Field(f.key, Strip(f.value)));
    hide DecodeEntry, Frame, ReadUint32, EntryBytes, Strip, Cost, KeyIn, Put;
  }

  lemma StripKeeps(v: Json)
    ensures Strip(v) == Undefined <==> v == Undefined
  {}

  /** The keys still to come are new. */
  predicate AllNew(fields: seq<Field>, acc: seq<Field>) {
    forall i :: 0 <= i < |fields| ==> !KeyIn(fields[i].key, acc)
  }

  lemma NextAllNew(fields: seq<Field>, acc: seq<Field>, v: Json)
    requires fields != [] && DistinctKeys(fields) && AllNew(fields, acc)
    ensures DistinctKeys(fields[1..]) && AllNew(fields[1..], acc)
    ensures AllNew(fields[1..], acc + [Field(fields[0].key, v)])
  {
    var acc' := acc + [Field(fields[0].key, v)];
    forall i | 0 <= i < |fields[1..]| ensures !KeyIn(fields[1..][i].key, acc) && !KeyIn(fields[1..][i].key, acc') {
      assert fields[1..][i] == fields[i + 1] && fields[i + 1].key != fields[0].key;
      assert !KeyIn(fields[i + 1].key, acc);
      forall j | 0 <= j < |acc'| ensures acc'[j].key != fields[i + 1].key {
        if j < |acc| { assert acc'[j] == acc[j]; }
      }
    }
  }

  lemma {:induction false} StructDecodes(fields: seq<Field>, tail: Bytes, depth: nat, acc: seq<Field>)
    requires forall i :: 0 <= i < |fields| ==> WellFormed(fields[i].value)
    requires StructEncodable(fields) && depth <= LIMIT
    requires DistinctKeys(fields) && AllNew(fields, acc)
    ensures StructLoop(StructBytes(fields) + tail, |StructBytes(fields)|, depth, acc)
         == Outcome(depth, FieldsCost(fields), acc + StripFields(fields), tail)
    decreases fields, 0
  {
    hide StructLoop, StructMember, Frame, ReadUint32, EntryBytes, Strip, Cost;
    hide WellFormed, EntryEncodable, KeyIn, AllNew, DistinctKeys, Kept, Survives;
    if fields == [] {
      assert StructBytes(fields) + tail == tail && acc + StripFields(fields) == acc;
      StructLoopEnd(tail, depth, acc);
    } else {
      var f, others := fields[0], fields[1..];
      var rest := StructBytes(others);
      var kept := Field(f.key, Strip(f.value));
      NextAllNew(fields, acc, Strip(f.value));
      var r := StructBytes(fields) + tail;
      KeptSurvives(f);
      if Kept(f) {
        var frame := Frame(EntryBytes(f));
        assert r == [10] + (frame + (rest + tail));
        TagReads(10, frame + (rest + tail));
        StructLoopStep(r, |StructBytes(fields)|, depth, acc, frame + (rest + tail));
        FirstIsNew(fields, acc);
        FieldDecodes(f, rest + tail, depth, acc);
        StructDecodes(others, tail, depth, acc + [kept]);
        ConcatAssoc(acc, [kept], StripFields(others));
      } else {
        assert StructBytes(fields) == rest && StripFields(fields) == StripFields(others);
        StructDecodes(others, tail, depth, acc);
      }
    }
  }

  lemma FirstIsNew(fields: seq<Field>, acc: seq<Field>)
    requires fields != [] && AllNew(fields, acc)
    ensures !KeyIn(fields[0].key, acc)
  {}

  // The results.

  /** Nothing in the value is dropped on the way to the wire. */
  predicate Complete(v: Json)
  {
    match v
    case List(items) => forall i :: 0 <= i < |items| ==> Complete(items[i])
    case Object(fields) => forall i :: 0 <= i < |fields| ==> Survives(fields[i]) && Complete(fields[i].value)
    case _ => true
  }

  lemma {:induction false} StripIdentity(v: Json)
    ensures Strip(v) == v <==> Complete(v)
    decreases v, 1
  {
    match v
    case List(items) => StripItemsIdentity(items);
    case Object(fields) => StripFieldsIdentity(fields);
    case _ =>
  }

  lemma {:induction false} StripItemsIdentity(items: seq<Json>)
    ensures StripItems(items) == items <==> forall i :: 0 <= i < |items| ==> Complete(items[i])
    decreases items, 0
  {
    if items != [] {
      StripIdentity(items[0]);
      StripItemsIdentity(items[1..]);
      hide Strip, Complete;
      assert items == [items[0]] + items[1..];
      var s := StripItems(items);
      assert s[0] == Strip(items[0]) && s[1..] == StripItems(items[1..]);
      assert forall i :: 1 <= i < |items| ==> items[i] == items[1..][i - 1];
      assert forall i :: 0 <= i < |items[1..]| ==> items[1..][i] == items[i + 1];
    }
  }

  lemma {:induction false} StripFieldsShorter(fields: seq<Field>)
    ensures |StripFields(fields)| <= |fields|
  {
    if fields != [] { StripFieldsShorter(fields[1..]); }
  }

  lemma {:induction false} StripFieldsIdentity(fields: seq<Field>)
    ensures StripFields(fields) == fields
       <==> forall i :: 0 <= i < |fields| ==> Survives(fields[i]) && Complete(fields[i].value)
    decreases fields, 0
  {
    if fields != [] {
      var f, others := fields[0], fields[1..];
      StripIdentity(f.value);
      StripFieldsIdentity(others);
      StripFieldsShorter(others);
      hide Strip, Complete, Survives;
      assert fields == [f] + others;
      var s := StripFields(fields);
      if Survives(f) {
        assert s[0] == Field(f.key, Strip(f.value)) && s[1..] == StripFields(others);
      }
      assert forall i :: 1 <= i < |fields| ==> fields[i] == others[i - 1];
      assert forall i :: 0 <= i < |others| ==> others[i] == fields[i + 1];
    }
  }

  /** unwrap(decode(encode(wrap(v)))) on a fresh reader. */
  function ThereAndBack(v: Json): Result<Json, DecodeError>
  {
    match DecodeValue(ValueBytes(v), |ValueBytes(v)|, 0)
    case Err(e) => Err(e)
    case Ok(g) => Ok(Unwrap(g.value))
  }

  /**
   The frame is read exactly to its end, whatever follows it, and gives the value back without
   the entries that never reach the wire, unless its depth exceeds the limit.
   */
  lemma RoundTrip(v: Json, tail: Bytes)
    requires WellFormed(v) && Encodable(v)
    ensures DecodeValue(ValueBytes(v) + tail, |ValueBytes(v)|, 0)
         == if Cost(v) <= 100 then Ok(Got(Wrap(Strip(v)), tail)) else Err(RecursionLimit)
    ensures ThereAndBack(v) == if Cost(v) <= 100 then Ok(Strip(v)) else Err(RecursionLimit)
  {
    hide DecodeValue, ValueBytes, Strip, Cost, Wrap, Unwrap;
    ValueDecodes(v, tail, 0);
    ValueDecodes(v, [], 0);
    assert ValueBytes(v) + [] == ValueBytes(v);
    WrapUnwrap(Strip(v));
  }

  /** Exactly the values that come back unchanged. */
  lemma RoundTripExactly(v: Json)
    requires WellFormed(v) && Encodable(v)
    ensures ThereAndBack(v) == Ok(v) <==> Cost(v) <= 100 && Complete(v)
  {
    hide ThereAndBack, Strip, Cost, Complete;
    RoundTrip(v, []);
    StripIdentity(v);
  }
}
