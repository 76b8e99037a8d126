/**
 typescript/src/gen/google/protobuf/struct.ts: the values that Struct, Value and ListValue
 carry, what their encoders write and what their decoders read.
 */
module JsonValues {
  import opened Wrappers
  import opened BitStrings
  import opened Wire

  /** A JavaScript value as Value.wrap accepts it. Text is its UTF-8 bytes, a number its 64-bit pattern. */
  datatype Json =
    | Undefined
    | Null
    | Bool(flag: bool)
    | Number(bits: nat)
    | Text(utf8: Bytes)
    | List(items: seq<Json>)
    | Object(fields: seq<Field>)

  /** An object is its own entries in the order Object.entries gives them. */
  datatype Field = Field(key: Bytes, value: Json)

  /** The message Value: all members optional. */
  datatype ValueMsg = ValueMsg(
    nullValue: Option<nat>,
    numberValue: Option<nat>,
    stringValue: Option<Bytes>,
    boolValue: Option<bool>,
    structValue: Option<seq<Field>>,
    listValue: Option<seq<Json>>)

  const EMPTY := ValueMsg(None, None, None, None, None, None)

  /** "__proto__": assigning this key sets the prototype and creates no entry. */
  const PROTO: Bytes := [95, 95, 112, 114, 111, 116, 111, 95, 95]

  // What a JavaScript value satisfies by construction.

  predicate DistinctKeys(fields: seq<Field>) {
    forall i, j :: 0 <= i < j < |fields| ==> fields[i].key != fields[j].key
  }

  predicate WellFormed(v: Json)
  {
    match v
    case Number(bits) => bits < UINT64
    case List(items) => forall i :: 0 <= i < |items| ==> WellFormed(items[i])
    case Object(fields) => DistinctKeys(fields) && forall i :: 0 <= i < |fields| ==> WellFormed(fields[i].value)
    case _ => true
  }

  function Wrap(v: Json): ValueMsg
  {
    match v
    case Undefined => EMPTY
    case Null => EMPTY.(nullValue := Some(0))
    case Bool(b) => EMPTY.(boolValue := Some(b))
    case Number(n) => EMPTY.(numberValue := Some(n))
    case Text(t) => EMPTY.(stringValue := Some(t))
    case List(items) => EMPTY.(listValue := Some(items))
    case Object(fields) => EMPTY.(structValue := Some(fields))
  }

  /** Value.unwrap: the first member that is set, in this order. */
  function Unwrap(m: ValueMsg): Json
  {
    if m.stringValue.Some? then Text(m.stringValue.value)
    else if m.numberValue.Some? then Number(m.numberValue.value)
    else if m.boolValue.Some? then Bool(m.boolValue.value)
    else if m.structValue.Some? then Object(m.structValue.value)
    else if m.listValue.Some? then List(m.listValue.value)
    else if m.nullValue.Some? then Null
    else Undefined
  }

  /** Struct.encode on Struct.wrap: the entries that reach the wire. */
  predicate Kept(f: Field) {
    f.key != PROTO && f.value != Undefined
  }

  // What the encoders write.

  function ValueBytes(v: Json): Bytes
    decreases v, 1
  {
    match v
    case Undefined => []
    case Null => [8] + Varint(0)
    case Number(n) => [17] + LittleEndian(n, 8)
    case Text(t) => [26] + Frame(t)
    case Bool(b) => [32] + [if b then 1 else 0]
    case Object(fields) => [42] + Frame(StructBytes(fields))
    case List(items) => [50] + Frame(ListBytes(items))
  }

  function ListBytes(items: seq<Json>): Bytes
    decreases items, 0
  {
    if items == [] then [] else [10] + Frame(ValueBytes(items[0])) + ListBytes(items[1..])
  }

  function StructBytes(fields: seq<Field>): Bytes
    decreases fields, 0
  {
    if fields == [] then []
    else (if Kept(fields[0]) then [10] + Frame(EntryBytes(fields[0])) else []) + StructBytes(fields[1..])
  }

  function EntryBytes(f: Field): Bytes
    decreases f, 2
  {
    (if f.key != [] then [10] + Frame(f.key) else [])
    + if f.value != Undefined then [18] + Frame(ValueBytes(f.value)) else []
  }

  /** Every length prefix fits the writer's 32-bit check; otherwise the writer throws. */
  predicate Encodable(v: Json)
    decreases v, 1
  {
    match v
    case Text(t) => |t| < UINT32
    case List(items) => ListEncodable(items) && |ListBytes(items)| < UINT32
    case Object(fields) => StructEncodable(fields) && |StructBytes(fields)| < UINT32
    case _ => true
  }

  predicate ListEncodable(items: seq<Json>)
    decreases items, 0
  {
    items == [] || (Encodable(items[0]) && |ValueBytes(items[0])| < UINT32 && ListEncodable(items[1..]))
  }

  predicate StructEncodable(fields: seq<Field>)
    decreases fields, 0
  {
    fields == [] || ((Kept(fields[0]) ==> EntryEncodable(fields[0]) && |EntryBytes(fields[0])| < UINT32)
                     && StructEncodable(fields[1..]))
  }

  predicate EntryEncodable(f: Field)
    decreases f, 2
  {
    |f.key| < UINT32 && (f.value != Undefined ==> Encodable(f.value) && |ValueBytes(f.value)| < UINT32)
  }

  // What the decoders read. `left` is how far the end of the frame is from the bytes that remain;
  // the frame may end beyond them, or a member may run over the end, exactly as in the source.

  const LIMIT := 100

  function DecodeValue(r: Bytes, left: int, depth: nat): (g: Reading<ValueMsg>)
    ensures g.Ok? ==> |g.value.rest| <= |r|
    decreases LIMIT - depth, |r|, 2
  {
    if depth >= LIMIT then Err(RecursionLimit) else ValueLoop(r, left, depth + 1, EMPTY)
  }

  /** The loop of Value.decode; `depth` is the counter while it runs. */
  function ValueLoop(r: Bytes, left: int, depth: nat, m: ValueMsg): (g: Reading<ValueMsg>)
    requires depth <= LIMIT
    ensures g.Ok? ==> |g.value.rest| <= |r|
    decreases LIMIT - depth, |r|, 1
  {
    if left <= 0 then Ok(Got(m, r))
    else match ReadUint32(r)
      case Err(e) => Err(e)
      case Ok(tag) =>
        if !KnownValueTag(tag.value) && StopTag(tag.value) then Ok(Got(m, tag.rest))
        else match ValueMember(tag.rest, tag.value, depth, m)
          case Err(e) => Err(e)
          case Ok(g) => ValueLoop(g.rest, left - (|r| - |g.rest|), depth, g.value)
  }

  predicate KnownValueTag(tag: nat) {
    tag in {8, 17, 26, 32, 42, 50}
  }

  /** An end-group tag or a zero tag ends a message early. */
  predicate StopTag(tag: nat) {
    tag % 8 == 4 || tag == 0
  }

  /** One member of a Value, or an unknown field skipped. */
  function ValueMember(r: Bytes, tag: nat, depth: nat, m: ValueMsg): (g: Reading<ValueMsg>)
    requires depth <= LIMIT
    ensures g.Ok? ==> |g.value.rest| <= |r|
    decreases LIMIT - depth, |r|, 0
  {
    match tag
    case 8 => (match ReadUint32(r) case Err(e) => Err(e) case Ok(g) => Ok(Got(m.(nullValue := Some(g.value)), g.rest)))
    case 17 => (match ReadFixed64(r)
                case Err(e) => Err(e)
                case Ok(g) => Ok(Got(m.(numberValue := Some(g.value)), g.rest)))
    case 26 => (match ReadBytes(r)
                case Err(e) => Err(e)
                case Ok(g) => Ok(Got(m.(stringValue := Some(g.value)), g.rest)))
    case 32 => (match ReadBool(r) case Err(e) => Err(e) case Ok(g) => Ok(Got(m.(boolValue := Some(g.value)), g.rest)))
    case 42 => (match ReadUint32(r)
      case Err(e) => Err(e)
      case Ok(len) => match DecodeStruct(len.rest, len.value, depth)
        case Err(e) => Err(e)
        case Ok(g) => Ok(Got(m.(structValue := Some(g.value)), g.rest)))
    case 50 => (match ReadUint32(r)
      case Err(e) => Err(e)
      case Ok(len) => match DecodeList(len.rest, len.value, depth)
        case Err(e) => Err(e)
        case Ok(g) => Ok(Got(m.(listValue := Some(g.value)), g.rest)))
    case _ => match Skip(r, tag % 8, None)
      case Err(e) => Err(e)
      case Ok(g) => Ok(Got(m, g.rest))
  }

  function DecodeList(r: Bytes, left: int, depth: nat): (g: Reading<seq<Json>>)
    ensures g.Ok? ==> |g.value.rest| <= |r|
    decreases LIMIT - depth, |r|, 2
  {
    if depth >= LIMIT then Err(RecursionLimit) else ListLoop(r, left, depth + 1, [])
  }

  function ListLoop(r: Bytes, left: int, depth: nat, acc: seq<Json>): (g: Reading<seq<Json>>)
    requires depth <= LIMIT
    ensures g.Ok? ==> |g.value.rest| <= |r|
    decreases LIMIT - depth, |r|, 1
  {
    if left <= 0 then Ok(Got(acc, r))
    else match ReadUint32(r)
      case Err(e) => Err(e)
      case Ok(tag) =>
        if tag.value != 10 && StopTag(tag.value) then Ok(Got(acc, tag.rest))
        else match ListMember(tag.rest, tag.value, depth, acc)
          case Err(e) => Err(e)
          case Ok(g) => ListLoop(g.rest, left - (|r| - |g.rest|), depth, g.value)
  }

  function ListMember(r: Bytes, tag: nat, depth: nat, acc: seq<Json>): (g: Reading<seq<Json>>)
    requires depth <= LIMIT
    ensures g.Ok? ==> |g.value.rest| <= |r|
    decreases LIMIT - depth, |r|, 0
  {
    if tag == 10 then
      match ReadUint32(r)
      case Err(e) => Err(e)
      case Ok(len) => match DecodeValue(len.rest, len.value, depth)
        case Err(e) => Err(e)
        case Ok(g) => Ok(Got(acc + [Unwrap(g.value)], g.rest))
    else match Skip(r, tag % 8, None)
      case Err(e) => Err(e)
      case Ok(g) => Ok(Got(acc, g.rest))
  }

  /** message.fields[key] = value, unless the value is undefined. */
  function Put(fields: seq<Field>, f: Field): seq<Field>
  {
    if !Kept(f) then fields
    else if fields == [] then [f]
    else if fields[0].key == f.key then [f] + fields[1..]
    else [fields[0]] + Put(fields[1..], f)
  }

  function DecodeStruct(r: Bytes, left: int, depth: nat): (g: Reading<seq<Field>>)
    ensures g.Ok? ==> |g.value.rest| <= |r|
    decreases LIMIT - depth, |r|, 2
  {
    if depth >= LIMIT then Err(RecursionLimit) else StructLoop(r, left, depth + 1, [])
  }

  function StructLoop(r: Bytes, left: int, depth: nat, acc: seq<Field>): (g: Reading<seq<Field>>)
    requires depth <= LIMIT
    ensures g.Ok? ==> |g.value.rest| <= |r|
    decreases LIMIT - depth, |r|, 1
  {
    if left <= 0 then Ok(Got(acc, r))
    else match ReadUint32(r)
      case Err(e) => Err(e)
      case Ok(tag) =>
        if tag.value != 10 && StopTag(tag.value) then Ok(Got(acc, tag.rest))
        else match StructMember(tag.rest, tag.value, depth, acc)
          case Err(e) => Err(e)
          case Ok(g) => StructLoop(g.rest, left - (|r| - |g.rest|), depth, g.value)
  }

  function StructMember(r: Bytes, tag: nat, depth: nat, acc: seq<Field>): (g: Reading<seq<Field>>)
    requires depth <= LIMIT
    ensures g.Ok? ==> |g.value.rest| <= |r|
    decreases LIMIT - depth, |r|, 0
  {
    if tag == 10 then
      match ReadUint32(r)
      case Err(e) => Err(e)
      case Ok(len) => match DecodeEntry(len.rest, len.value, depth)
        case Err(e) => Err(e)
        case Ok(g) => Ok(Got(Put(acc, g.value), g.rest))
    else match Skip(r, tag % 8, None)
      case Err(e) => Err(e)
      case Ok(g) => Ok(Got(acc, g.rest))
  }

  const NO_ENTRY := Field([], Undefined)

  function DecodeEntry(r: Bytes, left: int, depth: nat): (g: Reading<Field>)
    ensures g.Ok? ==> |g.value.rest| <= |r|
    decreases LIMIT - depth, |r|, 2
  {
    if depth >= LIMIT then Err(RecursionLimit) else EntryLoop(r, left, depth + 1, NO_ENTRY)
  }

  function EntryLoop(r: Bytes, left: int, depth: nat, f: Field): (g: Reading<Field>)
    requires depth <= LIMIT
    ensures g.Ok? ==> |g.value.rest| <= |r|
    decreases LIMIT - depth, |r|, 1
  {
    if left <= 0 then Ok(Got(f, r))
    else match ReadUint32(r)
      case Err(e) => Err(e)
      case Ok(tag) =>
        if tag.value != 10 && tag.value != 18 && StopTag(tag.value) then Ok(Got(f, tag.rest))
        else match EntryMember(tag.rest, tag.value, depth, f)
          case Err(e) => Err(e)
          case Ok(g) => EntryLoop(g.rest, left - (|r| - |g.rest|), depth, g.value)
  }

  function EntryMember(r: Bytes, tag: nat, depth: nat, f: Field): (g: Reading<Field>)
    requires depth <= LIMIT
    ensures g.Ok? ==> |g.value.rest| <= |r|
    decreases LIMIT - depth, |r|, 0
  {
    if tag == 10 then
      match ReadBytes(r)
      case Err(e) => Err(e)
      case Ok(g) => Ok(Got(f.(key := g.value), g.rest))
    else if tag == 18 then
      match ReadUint32(r)
      case Err(e) => Err(e)
      case Ok(len) => match DecodeValue(len.rest, len.value, depth)
        case Err(e) => Err(e)
        case Ok(g) => Ok(Got(f.(value := Unwrap(g.value)), g.rest))
    else match Skip(r, tag % 8, None)
      case Err(e) => Err(e)
      case Ok(g) => Ok(Got(f, g.rest))
  }
}
