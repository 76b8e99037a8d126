/**
 typescript/src/gen/google/protobuf/struct.ts from the outside: whole messages, encoded with a
 fresh writer and decoded from their bytes with a fresh reader and no length.
 */
module StructMessages {
  import opened Wrappers
  import opened BitStrings
  import opened Wire
  import opened JsonValues
  import opened JsonRoundTrip
  import opened StructCodec

  // X.encode(X.wrap(value)).finish(): None when the writer throws.

  method EncodedValue(v: Json) returns (bytes: Option<Bytes>)
    ensures bytes == if Encodable(v) then Some(ValueBytes(v)) else None
  {
    hide Encodable, ValueBytes;
    var writer := new BinaryWriter();
    var ok := EncodeValue(v, writer);
    bytes := if ok then Some(writer.buf) else None;
    assert [] + ValueBytes(v) == ValueBytes(v);
  }

  method EncodedList(items: seq<Json>) returns (bytes: Option<Bytes>)
    ensures bytes == if ListEncodable(items) then Some(ListBytes(items)) else None
  {
    hide ListEncodable, ListBytes;
    var writer := new BinaryWriter();
    var ok := EncodeList(items, writer);
    bytes := if ok then Some(writer.buf) else None;
    assert [] + ListBytes(items) == ListBytes(items);
  }

  method EncodedStruct(fields: seq<Field>) returns (bytes: Option<Bytes>)
    ensures bytes == if StructEncodable(fields) then Some(StructBytes(fields)) else None
  {
    hide StructEncodable, StructBytes;
    var writer := new BinaryWriter();
    var ok := EncodeStruct(fields, writer);
    bytes := if ok then Some(writer.buf) else None;
    assert [] + StructBytes(fields) == StructBytes(fields);
  }

  // X.decode(bytes): a fresh reader and no length, with the position at which the reader stopped.

  method DecodedValue(bytes: Bytes) returns (r: Result<ValueMsg, DecodeError>, stop: nat)
    ensures stop <= |bytes|
    ensures match r
            case Ok(m) => DecodeValue(bytes, |bytes|, 0) == Ok(Got(m, bytes[stop..]))
            case Err(e) => DecodeValue(bytes, |bytes|, 0) == Err(e)
  {
    hide *;
    var reader := new BinaryReader(bytes);
    r := ReadValue(reader, None);
    stop := reader.pos;
    ghost var rest := reader.Rest();
    assert bytes[0..] == bytes;
  }

  method DecodedList(bytes: Bytes) returns (r: Result<seq<Json>, DecodeError>, stop: nat)
    ensures stop <= |bytes|
    ensures match r
            case Ok(m) => DecodeList(bytes, |bytes|, 0) == Ok(Got(m, bytes[stop..]))
            case Err(e) => DecodeList(bytes, |bytes|, 0) == Err(e)
  {
    hide *;
    var reader := new BinaryReader(bytes);
    r := ReadList(reader, None);
    stop := reader.pos;
    ghost var rest := reader.Rest();
    assert bytes[0..] == bytes;
  }

  method DecodedStruct(bytes: Bytes) returns (r: Result<seq<Field>, DecodeError>, stop: nat)
    ensures stop <= |bytes|
    ensures match r
            case Ok(m) => DecodeStruct(bytes, |bytes|, 0) == Ok(Got(m, bytes[stop..]))
            case Err(e) => DecodeStruct(bytes, |bytes|, 0) == Err(e)
  {
    hide *;
    var reader := new BinaryReader(bytes);
    r := ReadStruct(reader, None);
    stop := reader.pos;
    ghost var rest := reader.Rest();
    assert bytes[0..] == bytes;
  }

  // There and back. The frame is read to its end, and the limit on nesting is the one reason to fail.

  method ValueThereAndBack(v: Json) returns (bytes: Option<Bytes>, back: Result<Json, DecodeError>, stop: nat)
    requires WellFormed(v)
    ensures bytes.Some? <==> Encodable(v)
    ensures bytes.Some? ==> back == if Cost(v) <= 100 then Ok(Strip(v)) else Err(RecursionLimit)
    ensures bytes.Some? && back.Ok? ==> stop == |bytes.value|
  {
    hide WellFormed, Encodable, ValueBytes, DecodeValue, Strip, Cost, Wrap, Unwrap;
    bytes := EncodedValue(v);
    back, stop := Err(RecursionLimit), 0;
    if bytes.Some? {
      var message: Result<ValueMsg, DecodeError>;
      message, stop := DecodedValue(bytes.value);
      ValueDecodes(v, [], 0);
      assert bytes.value + [] == bytes.value;
      WrapUnwrap(Strip(v));
      match message {
        case Err(e) => back := Err(e);
        case Ok(m) => back := Ok(Unwrap(m));
      }
    }
  }

  method ListThereAndBack(items: seq<Json>)
    returns (bytes: Option<Bytes>, back: Result<seq<Json>, DecodeError>, stop: nat)
    requires WellFormed(List(items))
    ensures bytes.Some? <==> ListEncodable(items)
    ensures bytes.Some? ==>
              back == if 1 + ItemsCost(items) <= 100 then Ok(StripItems(items)) else Err(RecursionLimit)
    ensures bytes.Some? && back.Ok? ==> stop == |bytes.value|
  {
    assert forall i :: 0 <= i < |items| ==> WellFormed(items[i]);
    hide WellFormed, ListEncodable, ListBytes, ListLoop, StripItems, ItemsCost;
    bytes := EncodedList(items);
    back, stop := Err(RecursionLimit), 0;
    if bytes.Some? {
      back, stop := DecodedList(bytes.value);
      ListDecodes(items, [], 1, []);
      assert bytes.value + [] == bytes.value;
      assert [] + StripItems(items) == StripItems(items);
    }
  }

  method StructThereAndBack(fields: seq<Field>)
    returns (bytes: Option<Bytes>, back: Result<seq<Field>, DecodeError>, stop: nat)
    requires WellFormed(Object(fields))
    ensures bytes.Some? <==> StructEncodable(fields)
    ensures bytes.Some? ==>
              back == if 1 + FieldsCost(fields) <= 100 then Ok(StripFields(fields)) else Err(RecursionLimit)
    ensures bytes.Some? && back.Ok? ==> stop == |bytes.value|
  {
    assert AllNew(fields, []);
    hide WellFormed, StructEncodable, StructBytes, StructLoop, StripFields, FieldsCost, DistinctKeys, AllNew;
    bytes := EncodedStruct(fields);
    back, stop := Err(RecursionLimit), 0;
    if bytes.Some? {
      back, stop := DecodedStruct(bytes.value);
      EntriesWellFormed(fields);
      StructDecodes(fields, [], 1, []);
      assert bytes.value + [] == bytes.value;
      assert [] + StripFields(fields) == StripFields(fields);
    }
  }

  lemma EntriesWellFormed(fields: seq<Field>)
    requires WellFormed(Object(fields))
    ensures DistinctKeys(fields) && forall i :: 0 <= i < |fields| ==> WellFormed(fields[i].value)
  {}

  // Some encodings byte by byte.

  lemma ScalarVectors()
    ensures ValueBytes(Undefined) == [] && ValueBytes(Null) == [8, 0]
    ensures ValueBytes(Bool(true)) == [32, 1] && ValueBytes(Bool(false)) == [32, 0]
    ensures ValueBytes(Text([104, 105])) == [26, 2, 104, 105]
    ensures Varint(300) == [172, 2]
  {
    assert Varint(2) == [2];
  }

  /** 1.0 is 0x3FF0000000000000. */
  lemma NumberVector()
    ensures ValueBytes(Number(0x3FF0_0000_0000_0000)) == [17, 0, 0, 0, 0, 0, 0, 240, 63]
  {
    assert LittleEndian(0x3FF0, 2) == [240, 63] by { assert LittleEndian(0x3F, 1) == [63]; }
    ZeroByte(0x3FF0, 2);
    ZeroByte(0x3FF0_00, 3);
    ZeroByte(0x3FF0_0000, 4);
    ZeroByte(0x3FF0_0000_00, 5);
    ZeroByte(0x3FF0_0000_0000, 6);
    ZeroByte(0x3FF0_0000_0000_00, 7);
    hide LittleEndian;
  }

  lemma ZeroByte(n: nat, k: nat)
    ensures LittleEndian(256 * n, k + 1) == [0] + LittleEndian(n, k)
  {}

  lemma ListStep(v: Json, others: seq<Json>)
    ensures ListBytes([v] + others) == [10] + Frame(ValueBytes(v)) + ListBytes(others)
  {
    hide Frame, ValueBytes;
    assert ([v] + others)[1..] == others;
  }

  lemma SmallFrame(body: Bytes)
    requires |body| < 128
    ensures Frame(body) == [|body|] + body
  {}

  /** [null, true]. */
  lemma ListVector()
    ensures ValueBytes(List([Null, Bool(true)])) == [50, 8, 10, 2, 8, 0, 10, 2, 32, 1]
  {
    ScalarVectors();
    ListStep(Null, [Bool(true)]);
    ListStep(Bool(true), []);
    SmallFrame([8, 0]);
    SmallFrame([32, 1]);
    SmallFrame([10, 2, 8, 0, 10, 2, 32, 1]);
    hide Frame;
    assert [Null] + [Bool(true)] == [Null, Bool(true)] && [Bool(true)] + [] == [Bool(true)];
  }

  /** {"a": null}. */
  lemma ObjectVector()
    ensures ValueBytes(Object([Field([97], Null)])) == [42, 9, 10, 7, 10, 1, 97, 18, 2, 8, 0]
  {
    var f := Field([97], Null);
    ScalarVectors();
    SmallFrame([97]);
    SmallFrame([8, 0]);
    SmallFrame([10, 1, 97, 18, 2, 8, 0]);
    SmallFrame([10, 7, 10, 1, 97, 18, 2, 8, 0]);
    hide Frame;
    assert EntryBytes(f) == [10, 1, 97, 18, 2, 8, 0];
    assert StructBytes([f]) == [10] + Frame(EntryBytes(f)) + StructBytes([]);
  }

  // Repeated keys.

  function Lookup(fields: seq<Field>, key: Bytes): Option<Json>
  {
    if fields == [] then None
    else if fields[0].key == key then Some(fields[0].value)
    else Lookup(fields[1..], key)
  }

  /** An entry that arrives replaces the value under its key and touches no other key. */
  lemma {:induction false} PutLooksUp(fields: seq<Field>, f: Field, key: Bytes)
    ensures Lookup(Put(fields, f), key)
         == if key == f.key && key != [95, 95, 112, 114, 111, 116, 111, 95, 95] && f.value != Undefined
            then Some(f.value) else Lookup(fields, key)
  {
    if fields != [] {
      PutLooksUp(fields[1..], f, key);
      assert fields == [fields[0]] + fields[1..];
    }
  }
}
