/**
 typescript/src/gen/google/protobuf/struct.ts: the encode and decode methods, on a shared
 writer with fork and join and a shared reader with a position and a recursion counter.
 */
module StructCodec {
  import opened Wrappers
  import opened BitStrings
  import opened Wire
  import opened JsonValues

  // The writer. A method that answers false has thrown; nothing is then said about the buffer.

  class BinaryWriter {
    var stack: seq<Bytes>
    var buf: Bytes

    constructor ()
      ensures buf == [] && stack == []
    {
      buf, stack := [], [];
    }

    method Uint32(n: nat) returns (ok: bool)
      modifies this
      ensures ok <==> n < 0x1_0000_0000
      ensures ok ==> buf == old(buf) + Varint(n) && stack == old(stack)
    {
      if n >= UINT32 { return false; }
      buf := buf + Varint(n);
      return true;
    }

    method Tag(tag: Byte)
      requires tag < 128
      modifies this
      ensures buf == old(buf) + [tag] && stack == old(stack)
    {
      var ok := Uint32(tag);
    }

    method Raw(b: Bytes)
      modifies this
      ensures buf == old(buf) + b && stack == old(stack)
    {
      buf := buf + b;
    }

    /** writer.string and writer.bytes: a length-delimited record. */
    method Delimited(b: Bytes) returns (ok: bool)
      modifies this
      ensures ok <==> |b| < 0x1_0000_0000
      ensures ok ==> buf == old(buf) + Frame(b) && stack == old(stack)
    {
      ghost var before := buf;
      ok := Uint32(|b|);
      if ok {
        Raw(b);
        ConcatAssoc(before, Varint(|b|), b);
      }
    }

    method Fork()
      modifies this
      ensures buf == [] && stack == old(stack) + [old(buf)]
    {
      stack := stack + [buf];
      buf := [];
    }

    /** Ends the record begun by the last fork, when the buffer was b and the stack s. */
    method Join(ghost s: seq<Bytes>, ghost b: Bytes) returns (ok: bool)
      requires stack == s + [b]
      modifies this
      ensures ok <==> |old(buf)| < 0x1_0000_0000
      ensures ok ==> stack == s && buf == b + Frame(old(buf))
    {
      var chunk := buf;
      buf := stack[|stack| - 1];
      stack := stack[..|stack| - 1];
      ok := Delimited(chunk);
    }
  }

  method EncodeValue(v: Json, writer: BinaryWriter) returns (ok: bool)
    modifies writer
    ensures ok <==> Encodable(v)
    ensures ok ==> writer.buf == old(writer.buf) + ValueBytes(v) && writer.stack == old(writer.stack)
    decreases v, 1
  {
    hide Frame, Varint, LittleEndian;
    var message := Wrap(v);
    ghost var before := writer.buf;
    ok := true;
    if message.nullValue.Some? {
      writer.Tag(8);
      ok := writer.Uint32(message.nullValue.value);
      ConcatAssoc(before, [8], Varint(0));
    }
    if message.numberValue.Some? {
      writer.Tag(17);
      writer.Raw(LittleEndian(message.numberValue.value, 8));
      ConcatAssoc(before, [17], LittleEndian(message.numberValue.value, 8));
    }
    if message.stringValue.Some? {
      writer.Tag(26);
      ok := writer.Delimited(message.stringValue.value);
      ConcatAssoc(before, [26], Frame(message.stringValue.value));
    }
    if message.boolValue.Some? {
      writer.Tag(32);
      writer.Raw([if message.boolValue.value then 1 else 0]);
      ConcatAssoc(before, [32], [if message.boolValue.value then 1 else 0]);
    }
    if message.structValue.Some? {
      var fields := message.structValue.value;
      writer.Tag(42);
      ghost var s, b := writer.stack, writer.buf;
      writer.Fork();
      ok := EncodeStruct(fields, writer);
      if !ok { return false; }
      assert writer.buf == StructBytes(fields);
      ok := writer.Join(s, b);
      ConcatAssoc(before, [42], Frame(StructBytes(fields)));
    }
    if ok && message.listValue.Some? {
      var items := message.listValue.value;
      writer.Tag(50);
      ghost var s, b := writer.stack, writer.buf;
      writer.Fork();
      ok := EncodeList(items, writer);
      if !ok { return false; }
      assert writer.buf == ListBytes(items);
      ok := writer.Join(s, b);
      ConcatAssoc(before, [50], Frame(ListBytes(items)));
    }
    assert before + [] == before;
  }

  method EncodeList(items: seq<Json>, writer: BinaryWriter) returns (ok: bool)
    modifies writer
    ensures ok <==> ListEncodable(items)
    ensures ok ==> writer.buf == old(writer.buf) + ListBytes(items) && writer.stack == old(writer.stack)
    decreases items, 0
  {
    hide Frame, ValueBytes, Encodable;
    ghost var before := writer.buf;
    for i := 0 to |items|
      invariant writer.stack == old(writer.stack)
      invariant writer.buf + ListBytes(items[i..]) == before + ListBytes(items)
      invariant ListEncodable(items) <==> ListEncodable(items[i..])
    {
      var v := items[i];
      ghost var sofar := writer.buf;
      assert items[i..][0] == v && items[i..][1..] == items[i + 1..];
      writer.Tag(10);
      ghost var s, b := writer.stack, writer.buf;
      writer.Fork();
      ok := EncodeValue(v, writer);
      if !ok { return false; }
      assert writer.buf == ValueBytes(v);
      ok := writer.Join(s, b);
      if !ok { return false; }
      AppendMember(sofar, 10, Frame(ValueBytes(v)), ListBytes(items[i + 1..]));
    }
    assert items[|items|..] == [];
    return true;
  }

  lemma AppendMember(sofar: Bytes, tag: Byte, frame: Bytes, more: Bytes)
    ensures sofar + ([tag] + frame + more) == (sofar + [tag] + frame) + more
  {}

  /** The entries that copying onto a fresh object keeps, in their order: all but "__proto__". */
  function Copied(entries: seq<Field>): seq<Field>
  {
    if entries == [] then []
    else
      var n := |entries| - 1;
      Copied(entries[..n]) + if entries[n].key == PROTO then [] else [entries[n]]
  }

  /** Struct.wrap: an assignment to the key "__proto__" makes no entry. */
  method WrapStruct(entries: seq<Field>) returns (fields: seq<Field>)
    ensures fields == Copied(entries)
    ensures StructBytes(fields) == StructBytes(entries)
    ensures StructEncodable(fields) <==> StructEncodable(entries)
    ensures forall j :: 0 <= j < |fields| ==> fields[j] in entries && fields[j].key != PROTO
  {
    hide StructBytes, StructEncodable;
    fields := [];
    assert fields + entries[0..] == entries;
    for i := 0 to |entries|
      invariant fields == Copied(entries[..i])
      invariant StructBytes(fields + entries[i..]) == StructBytes(entries)
      invariant StructEncodable(fields + entries[i..]) <==> StructEncodable(entries)
      invariant forall j :: 0 <= j < |fields| ==> fields[j] in entries && fields[j].key != PROTO
    {
      assert entries[i..] == [entries[i]] + entries[i + 1..];
      assert entries[..i + 1][..i] == entries[..i];
      if entries[i].key != PROTO {
        ConcatAssoc(fields, [entries[i]], entries[i + 1..]);
        fields := fields + [entries[i]];
      } else {
        DropUnkept(fields, entries[i], entries[i + 1..]);
      }
    }
    assert fields + entries[|entries|..] == fields;
    assert entries[..|entries|] == entries;
  }

  lemma {:induction false} DropUnkept(a: seq<Field>, f: Field, b: seq<Field>)
    requires !Kept(f)
    ensures StructBytes(a + ([f] + b)) == StructBytes(a + b)
    ensures StructEncodable(a + ([f] + b)) <==> StructEncodable(a + b)
  {
    hide EntryBytes, Frame, EntryEncodable;
    if a == [] {
      assert a + ([f] + b) == [f] + b && a + b == b;
      assert ([f] + b)[1..] == b;
    } else {
      DropUnkept(a[1..], f, b);
      assert (a + ([f] + b))[1..] == a[1..] + ([f] + b) && (a + b)[1..] == a[1..] + b;
    }
  }

  method EncodeStruct(entries: seq<Field>, writer: BinaryWriter) returns (ok: bool)
    modifies writer
    ensures ok <==> StructEncodable(entries)
    ensures ok ==> writer.buf == old(writer.buf) + StructBytes(entries) && writer.stack == old(writer.stack)
    decreases entries, 0
  {
    hide Frame, EntryBytes, EntryEncodable;
    ghost var before := writer.buf;
    var fields := WrapStruct(entries);
    for i := 0 to |fields|
      invariant writer.stack == old(writer.stack)
      invariant writer.buf + StructBytes(fields[i..]) == before + StructBytes(fields)
      invariant StructEncodable(fields) <==> StructEncodable(fields[i..])
    {
      var f := fields[i];
      ghost var sofar := writer.buf;
      assert fields[i..][0] == f && fields[i..][1..] == fields[i + 1..];
      if f.value != Undefined {
        writer.Tag(10);
        ghost var s, b := writer.stack, writer.buf;
        writer.Fork();
        ok := EncodeEntry(f, writer);
        if !ok { return false; }
        assert writer.buf == EntryBytes(f);
        ok := writer.Join(s, b);
        if !ok { return false; }
        AppendMember(sofar, 10, Frame(EntryBytes(f)), StructBytes(fields[i + 1..]));
      }
    }
    assert fields[|fields|..] == [];
    return true;
  }

  method EncodeEntry(f: Field, writer: BinaryWriter) returns (ok: bool)
    modifies writer
    ensures ok <==> EntryEncodable(f)
    ensures ok ==> writer.buf == old(writer.buf) + EntryBytes(f) && writer.stack == old(writer.stack)
    decreases f, 2
  {
    hide Frame, ValueBytes, Encodable;
    ghost var before := writer.buf;
    if f.key != [] {
      writer.Tag(10);
      ok := writer.Delimited(f.key);
      if !ok { return false; }
      ConcatAssoc(before, [10], Frame(f.key));
    }
    ghost var middle := writer.buf;
    if f.value != Undefined {
      writer.Tag(18);
      ghost var s, b := writer.stack, writer.buf;
      writer.Fork();
      ok := EncodeValue(f.value, writer);
      if !ok { return false; }
      assert writer.buf == ValueBytes(f.value);
      ok := writer.Join(s, b);
      if !ok { return false; }
      ConcatAssoc(middle, [18], Frame(ValueBytes(f.value)));
    }
    ghost var key := if f.key != [] then [10] + Frame(f.key) else [];
    ghost var value := if f.value != Undefined then [18] + Frame(ValueBytes(f.value)) else [];
    ConcatAssoc(before, key, value);
    return true;
  }

  // The reader. Its position is never past the end of its buffer when a method returns normally.

  class BinaryReader {
    const buf: Bytes
    var pos: nat
    var depth: nat

    constructor (buf: Bytes)
      ensures this.buf == buf && pos == 0 && depth == 0 && Valid()
    {
      this.buf := buf;
      pos, depth := 0, 0;
    }

    ghost predicate Valid()
      reads this
    {
      pos <= |buf|
    }

    function Rest(): (r: Bytes)
      requires Valid()
      reads this
      ensures pos <= |buf| && r == buf[pos..]
    {
      buf[pos..]
    }

    /** Moves past what a primitive read, or fails as it did. */
    method Take<T>(g: Reading<T>) returns (r: Result<T, DecodeError>)
      requires Valid() && (g.Ok? ==> SuffixOf(g.value.rest, Rest()))
      modifies this`pos
      ensures Valid()
      ensures match r
              case Ok(v) => g == Ok(Got(v, Rest()))
              case Err(e) => g == Err(e)
    {
      match g
      case Err(e) => return Err(e);
      case Ok(got) =>
        pos := |buf| - |got.rest|;
        return Ok(got.value);
    }

    method Uint32() returns (r: Result<nat, DecodeError>)
      requires Valid()
      modifies this`pos
      ensures Valid()
      ensures match r
              case Ok(v) => ReadUint32(old(Rest())) == Ok(Got(v, Rest()))
              case Err(e) => ReadUint32(old(Rest())) == Err(e)
    {
      ReadersSuffix(Rest());
      r := Take(ReadUint32(Rest()));
    }

    method Double() returns (r: Result<nat, DecodeError>)
      requires Valid()
      modifies this`pos
      ensures Valid()
      ensures match r
              case Ok(v) => ReadFixed64(old(Rest())) == Ok(Got(v, Rest()))
              case Err(e) => ReadFixed64(old(Rest())) == Err(e)
    {
      ReadersSuffix(Rest());
      r := Take(ReadFixed64(Rest()));
    }

    method Delimited() returns (r: Result<Bytes, DecodeError>)
      requires Valid()
      modifies this`pos
      ensures Valid()
      ensures match r
              case Ok(v) => ReadBytes(old(Rest())) == Ok(Got(v, Rest()))
              case Err(e) => ReadBytes(old(Rest())) == Err(e)
    {
      ReadersSuffix(Rest());
      r := Take(ReadBytes(Rest()));
    }

    method Bool() returns (r: Result<bool, DecodeError>)
      requires Valid()
      modifies this`pos
      ensures Valid()
      ensures match r
              case Ok(v) => ReadBool(old(Rest())) == Ok(Got(v, Rest()))
              case Err(e) => ReadBool(old(Rest())) == Err(e)
    {
      ReadersSuffix(Rest());
      r := Take(ReadBool(Rest()));
    }

    method SkipField(wireType: nat) returns (r: Result<(), DecodeError>)
      requires Valid()
      modifies this`pos
      ensures Valid()
      ensures match r
              case Ok(v) => Skip(old(Rest()), wireType, None) == Ok(Got(v, Rest()))
              case Err(e) => Skip(old(Rest()), wireType, None) == Err(e)
    {
      if Skip(Rest(), wireType, None).Ok? {
        SkipSuffix(Rest(), wireType, None);
      }
      r := Take(Skip(Rest(), wireType, None));
    }
  }

  method ReadValue(reader: BinaryReader, length: Option<nat>) returns (r: Result<ValueMsg, DecodeError>)
    requires reader.Valid()
    modifies reader
    ensures reader.Valid() && reader.depth == old(reader.depth)
    ensures var left := if length.Some? then length.value else |reader.buf| - old(reader.pos);
            match r
            case Ok(m) => DecodeValue(old(reader.Rest()), left, old(reader.depth)) == Ok(Got(m, reader.Rest()))
            case Err(e) => DecodeValue(old(reader.Rest()), left, old(reader.depth)) == Err(e)
    decreases LIMIT - reader.depth, |reader.buf| - reader.pos, 2
  {
    hide ValueMember, ReadUint32, Skip;
    var previous := reader.depth;
    if previous >= LIMIT {
      return Err(RecursionLimit);
    }
    reader.depth := previous + 1;
    var end := if length.None? then |reader.buf| else reader.pos + length.value;
    var message := EMPTY;
    ghost var whole := ValueLoop(reader.Rest(), end - reader.pos, previous + 1, EMPTY);
    while reader.pos < end
      invariant reader.Valid() && reader.depth == previous + 1
      invariant |reader.buf| - reader.pos <= |reader.buf| - old(reader.pos)
      invariant ValueLoop(reader.Rest(), end - reader.pos, previous + 1, message) == whole
      decreases |reader.buf| - reader.pos
    {
      var tag := reader.Uint32();
      if tag.Err? {
        reader.depth := previous;
        return Err(tag.error);
      }
      if !KnownValueTag(tag.value) && StopTag(tag.value) {
        break;
      }
      var member := ReadValueMember(reader, tag.value, message);
      if member.Err? {
        reader.depth := previous;
        return Err(member.error);
      }
      message := member.value;
    }
    reader.depth := previous;
    return Ok(message);
  }

  /** The switch of Value.decode. */
  method ReadValueMember(reader: BinaryReader, tag: nat, m: ValueMsg) returns (r: Result<ValueMsg, DecodeError>)
    requires reader.Valid() && reader.depth <= LIMIT
    modifies reader
    ensures reader.Valid() && reader.depth == old(reader.depth)
    ensures match r
            case Ok(m') => ValueMember(old(reader.Rest()), tag, old(reader.depth), m)
                           == Ok(Got(m', reader.Rest()))
            case Err(e) => ValueMember(old(reader.Rest()), tag, old(reader.depth), m) == Err(e)
    decreases LIMIT - reader.depth, |reader.buf| - reader.pos, 0
  {
    hide ReadUint32, ReadBytes, ReadFixed64, ReadBool, Skip, DecodeStruct, DecodeList;
    match tag
    case 8 => var n := reader.Uint32();
      match n { case Err(e) => return Err(e); case Ok(v) => return Ok(m.(nullValue := Some(v))); }
    case 17 => var n := reader.Double();
      match n { case Err(e) => return Err(e); case Ok(v) => return Ok(m.(numberValue := Some(v))); }
    case 26 => var s := reader.Delimited();
      match s { case Err(e) => return Err(e); case Ok(v) => return Ok(m.(stringValue := Some(v))); }
    case 32 => var b := reader.Bool();
      match b { case Err(e) => return Err(e); case Ok(v) => return Ok(m.(boolValue := Some(v))); }
    case 42 => var len := reader.Uint32();
      if len.Err? { return Err(len.error); }
      var s := ReadStruct(reader, Some(len.value));
      match s { case Err(e) => return Err(e); case Ok(v) => return Ok(m.(structValue := Some(v))); }
    case 50 => var len := reader.Uint32();
      if len.Err? { return Err(len.error); }
      var l := ReadList(reader, Some(len.value));
      match l { case Err(e) => return Err(e); case Ok(v) => return Ok(m.(listValue := Some(v))); }
    case _ => var u := reader.SkipField(tag % 8);
      match u { case Err(e) => return Err(e); case Ok(_) => return Ok(m); }
  }

  method ReadList(reader: BinaryReader, length: Option<nat>) returns (r: Result<seq<Json>, DecodeError>)
    requires reader.Valid()
    modifies reader
    ensures reader.Valid() && reader.depth == old(reader.depth)
    ensures var left := if length.Some? then length.value else |reader.buf| - old(reader.pos);
            match r
            case Ok(m) => DecodeList(old(reader.Rest()), left, old(reader.depth)) == Ok(Got(m, reader.Rest()))
            case Err(e) => DecodeList(old(reader.Rest()), left, old(reader.depth)) == Err(e)
    decreases LIMIT - reader.depth, |reader.buf| - reader.pos, 2
  {
    hide ListMember, ReadUint32, Skip;
    var previous := reader.depth;
    if previous >= LIMIT {
      return Err(RecursionLimit);
    }
    reader.depth := previous + 1;
    var end := if length.None? then |reader.buf| else reader.pos + length.value;
    var values: seq<Json> := [];
    ghost var whole := ListLoop(reader.Rest(), end - reader.pos, previous + 1, []);
    while reader.pos < end
      invariant reader.Valid() && reader.depth == previous + 1
      invariant |reader.buf| - reader.pos <= |reader.buf| - old(reader.pos)
      invariant ListLoop(reader.Rest(), end - reader.pos, previous + 1, values) == whole
      decreases |reader.buf| - reader.pos
    {
      var tag := reader.Uint32();
      if tag.Err? {
        reader.depth := previous;
        return Err(tag.error);
      }
      if tag.value != 10 && StopTag(tag.value) {
        break;
      }
      var member := ReadListMember(reader, tag.value, values);
      if member.Err? {
        reader.depth := previous;
        return Err(member.error);
      }
      values := member.value;
    }
    reader.depth := previous;
    return Ok(values);
  }

  /** The switch of ListValue.decode. */
  method ReadListMember(reader: BinaryReader, tag: nat, values: seq<Json>) returns (r: Result<seq<Json>, DecodeError>)
    requires reader.Valid() && reader.depth <= LIMIT
    modifies reader
    ensures reader.Valid() && reader.depth == old(reader.depth)
    ensures match r
            case Ok(vs) => ListMember(old(reader.Rest()), tag, old(reader.depth), values)
                           == Ok(Got(vs, reader.Rest()))
            case Err(e) => ListMember(old(reader.Rest()), tag, old(reader.depth), values) == Err(e)
    decreases LIMIT - reader.depth, |reader.buf| - reader.pos, 0
  {
    hide ReadUint32, Skip, DecodeValue, Unwrap;
    if tag == 10 {
      var len := reader.Uint32();
      if len.Err? { return Err(len.error); }
      var m := ReadValue(reader, Some(len.value));
      match m { case Err(e) => return Err(e); case Ok(v) => return Ok(values + [Unwrap(v)]); }
    }
    var u := reader.SkipField(tag % 8);
    match u { case Err(e) => return Err(e); case Ok(_) => return Ok(values); }
  }

  method ReadStruct(reader: BinaryReader, length: Option<nat>) returns (r: Result<seq<Field>, DecodeError>)
    requires reader.Valid()
    modifies reader
    ensures reader.Valid() && reader.depth == old(reader.depth)
    ensures var left := if length.Some? then length.value else |reader.buf| - old(reader.pos);
            match r
            case Ok(m) => DecodeStruct(old(reader.Rest()), left, old(reader.depth)) == Ok(Got(m, reader.Rest()))
            case Err(e) => DecodeStruct(old(reader.Rest()), left, old(reader.depth)) == Err(e)
    decreases LIMIT - reader.depth, |reader.buf| - reader.pos, 2
  {
    hide StructMember, ReadUint32, Skip;
    var previous := reader.depth;
    if previous >= LIMIT {
      return Err(RecursionLimit);
    }
    reader.depth := previous + 1;
    var end := if length.None? then |reader.buf| else reader.pos + length.value;
    var fields: seq<Field> := [];
    ghost var whole := StructLoop(reader.Rest(), end - reader.pos, previous + 1, []);
    while reader.pos < end
      invariant reader.Valid() && reader.depth == previous + 1
      invariant |reader.buf| - reader.pos <= |reader.buf| - old(reader.pos)
      invariant StructLoop(reader.Rest(), end - reader.pos, previous + 1, fields) == whole
      decreases |reader.buf| - reader.pos
    {
      var tag := reader.Uint32();
      if tag.Err? {
        reader.depth := previous;
        return Err(tag.error);
      }
      if tag.value != 10 && StopTag(tag.value) {
        break;
      }
      var member := ReadStructMember(reader, tag.value, fields);
      if member.Err? {
        reader.depth := previous;
        return Err(member.error);
      }
      fields := member.value;
    }
    reader.depth := previous;
    return Ok(fields);
  }

  /** The switch of Struct.decode. */
  method ReadStructMember(reader: BinaryReader, tag: nat, fields: seq<Field>)
    returns (r: Result<seq<Field>, DecodeError>)
    requires reader.Valid() && reader.depth <= LIMIT
    modifies reader
    ensures reader.Valid() && reader.depth == old(reader.depth)
    ensures match r
            case Ok(fs) => StructMember(old(reader.Rest()), tag, old(reader.depth), fields)
                           == Ok(Got(fs, reader.Rest()))
            case Err(e) => StructMember(old(reader.Rest()), tag, old(reader.depth), fields) == Err(e)
    decreases LIMIT - reader.depth, |reader.buf| - reader.pos, 0
  {
    hide ReadUint32, Skip, DecodeEntry, Put;
    if tag == 10 {
      var len := reader.Uint32();
      if len.Err? { return Err(len.error); }
      var f := ReadEntry(reader, Some(len.value));
      match f { case Err(e) => return Err(e); case Ok(v) => return Ok(Put(fields, v)); }
    }
    var u := reader.SkipField(tag % 8);
    match u { case Err(e) => return Err(e); case Ok(_) => return Ok(fields); }
  }

  method ReadEntry(reader: BinaryReader, length: Option<nat>) returns (r: Result<Field, DecodeError>)
    requires reader.Valid()
    modifies reader
    ensures reader.Valid() && reader.depth == old(reader.depth)
    ensures var left := if length.Some? then length.value else |reader.buf| - old(reader.pos);
            match r
            case Ok(m) => DecodeEntry(old(reader.Rest()), left, old(reader.depth)) == Ok(Got(m, reader.Rest()))
            case Err(e) => DecodeEntry(old(reader.Rest()), left, old(reader.depth)) == Err(e)
    decreases LIMIT - reader.depth, |reader.buf| - reader.pos, 2
  {
    hide EntryMember, ReadUint32, Skip;
    var previous := reader.depth;
    if previous >= LIMIT {
      return Err(RecursionLimit);
    }
    reader.depth := previous + 1;
    var end := if length.None? then |reader.buf| else reader.pos + length.value;
    var f := NO_ENTRY;
    ghost var whole := EntryLoop(reader.Rest(), end - reader.pos, previous + 1, NO_ENTRY);
    while reader.pos < end
      invariant reader.Valid() && reader.depth == previous + 1
      invariant |reader.buf| - reader.pos <= |reader.buf| - old(reader.pos)
      invariant EntryLoop(reader.Rest(), end - reader.pos, previous + 1, f) == whole
      decreases |reader.buf| - reader.pos
    {
      var tag := reader.Uint32();
      if tag.Err? {
        reader.depth := previous;
        return Err(tag.error);
      }
      if tag.value != 10 && tag.value != 18 && StopTag(tag.value) {
        break;
      }
      var member := ReadEntryMember(reader, tag.value, f);
      if member.Err? {
        reader.depth := previous;
        return Err(member.error);
      }
      f := member.value;
    }
    reader.depth := previous;
    return Ok(f);
  }

  /** The switch of Struct_FieldsEntry.decode. */
  method ReadEntryMember(reader: BinaryReader, tag: nat, f: Field) returns (r: Result<Field, DecodeError>)
    requires reader.Valid() && reader.depth <= LIMIT
    modifies reader
    ensures reader.Valid() && reader.depth == old(reader.depth)
    ensures match r
            case Ok(f') => EntryMember(old(reader.Rest()), tag, old(reader.depth), f)
                           == Ok(Got(f', reader.Rest()))
            case Err(e) => EntryMember(old(reader.Rest()), tag, old(reader.depth), f) == Err(e)
    decreases LIMIT - reader.depth, |reader.buf| - reader.pos, 0
  {
    hide ReadUint32, ReadBytes, Skip, DecodeValue, Unwrap;
    if tag == 10 {
      var s := reader.Delimited();
      match s { case Err(e) => return Err(e); case Ok(v) => return Ok(f.(key := v)); }
    }
    if tag == 18 {
      var len := reader.Uint32();
      if len.Err? { return Err(len.error); }
      var m := ReadValue(reader, Some(len.value));
      match m { case Err(e) => return Err(e); case Ok(v) => return Ok(f.(value := Unwrap(v))); }
    }
    var u := reader.SkipField(tag % 8);
    match u { case Err(e) => return Err(e); case Ok(_) => return Ok(f); }
  }
}
