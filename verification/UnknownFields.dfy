/**
 typescript/src/gen/google/protobuf/struct.ts, the fields that decode passes over: reader.skip reads a field of
 any wire type, nested groups included, exactly to its end.
 */
module UnknownFields {
  import opened Wrappers
  import opened BitStrings
  import opened Wire
  import opened JsonValues
  import opened JsonRoundTrip

  /** What a field of each wire type holds; a group holds fields of its own up to its end tag. */
  datatype Unknown =
    | Integer(n: nat)
    | Fixed64(bytes: Bytes)
    | Delimited(body: Bytes)
    | Group(members: seq<Member>)
    | Fixed32(bytes: Bytes)

  datatype Member = Member(number: nat, field: Unknown)

  function WireType(f: Unknown): nat
  {
    match f case Integer(_) => 0 case Fixed64(_) => 1 case Delimited(_) => 2 case Group(_) => 3 case Fixed32(_) => 5
  }

  predicate IsNumber(number: nat) {
    0 < number < 0x2000_0000
  }

  predicate IsField(f: Unknown)
  {
    match f
    case Integer(_) => true
    case Fixed64(bytes) => |bytes| == 8
    case Delimited(body) => |body| < 0x1_0000_0000
    case Group(members) => forall i :: 0 <= i < |members| ==> IsNumber(members[i].number) && IsField(members[i].field)
    case Fixed32(bytes) => |bytes| == 4
  }

  /** The bytes after the tag. */
  function BodyOf(number: nat, f: Unknown): Bytes
    decreases f, 1
  {
    match f
    case Integer(n) => Varint(n)
    case Fixed64(bytes) => bytes
    case Delimited(body) => Frame(body)
    case Group(members) => MembersOf(members) + Varint(8 * number + 4)
    case Fixed32(bytes) => bytes
  }

  function MembersOf(members: seq<Member>): Bytes
    decreases members, 0
  {
    if members == [] then [] else MemberOf(members[0]) + MembersOf(members[1..])
  }

  function MemberOf(m: Member): Bytes
    decreases m, 2
  {
    Varint(8 * m.number + WireType(m.field)) + BodyOf(m.number, m.field)
  }

  lemma {:induction false} SkipsVarint(n: nat, tail: Bytes)
    ensures SkipVarint(Varint(n) + tail) == Ok(Got((), tail))
  {
    var r := Varint(n) + tail;
    if n < 128 {
      assert r[1..] == tail;
    } else {
      SkipsVarint(n / 128, tail);
      assert r[1..] == Varint(n / 128) + tail;
    }
  }

  /** A field of any wire type is skipped to its end; the end tag of a group bears the group's number. */
  lemma {:induction false} SkipsField(number: nat, f: Unknown, expected: Option<nat>, tail: Bytes)
    requires IsNumber(number) && IsField(f) && expected in {None, Some(number)}
    ensures Skip(BodyOf(number, f) + tail, WireType(f), expected) == Ok(Got((), tail))
    decreases f, 1
  {
    hide ReadBytes, SkipVarint, SkipGroup, Varint, Frame, MembersOf;
    match f
    case Integer(n) => SkipsVarint(n, tail);
    case Fixed64(bytes) => assert (bytes + tail)[8..] == tail;
    case Delimited(body) => FrameReadsBack(body, tail);
    case Group(members) => SkipsMembers(number, members, expected, tail);
    case Fixed32(bytes) => assert (bytes + tail)[4..] == tail;
  }

  lemma {:induction false} SkipsMembers(number: nat, members: seq<Member>, expected: Option<nat>, tail: Bytes)
    requires IsNumber(number) && expected in {None, Some(number)}
    requires forall i :: 0 <= i < |members| ==> IsNumber(members[i].number) && IsField(members[i].field)
    ensures SkipGroup(MembersOf(members) + Varint(8 * number + 4) + tail, expected) == Ok(Got((), tail))
    decreases members, 0
  {
    hide ReadUint32, Varint, MemberOf, Skip, IsField;
    var end := Varint(8 * number + 4);
    if members == [] {
      assert MembersOf(members) + end + tail == end + tail;
      Uint32ReadsBack(8 * number + 4, tail);
    } else {
      var more := MembersOf(members[1..]) + end + tail;
      assert MembersOf(members) + end + tail == MemberOf(members[0]) + more;
      SkipsMember(members[0], expected, more);
      SkipsMembers(number, members[1..], expected, tail);
    }
  }

  lemma {:induction false} SkipsMember(m: Member, expected: Option<nat>, more: Bytes)
    requires IsNumber(m.number) && IsField(m.field)
    ensures SkipGroup(MemberOf(m) + more, expected) == SkipGroup(more, expected)
    decreases m, 2
  {
    hide ReadUint32, Varint, BodyOf, Skip, IsField;
    var tag, body := 8 * m.number + WireType(m.field), BodyOf(m.number, m.field);
    ConcatAssoc(Varint(tag), body, more);
    Uint32ReadsBack(tag, body + more);
    SkipsField(m.number, m.field, Some(m.number), more);
  }

  /** The tag and the body of a field that the message does not have. */
  function FieldBytes(number: nat, f: Unknown): Bytes
  {
    Varint(8 * number + WireType(f)) + BodyOf(number, f)
  }

  lemma ReadsField(number: nat, f: Unknown, r: Bytes)
    requires IsNumber(number) && IsField(f)
    ensures var tag := 8 * number + WireType(f);
            && !StopTag(tag) && ReadUint32(FieldBytes(number, f) + r) == Ok(Got(tag, BodyOf(number, f) + r))
            && Skip(BodyOf(number, f) + r, tag % 8, None) == Ok(Got((), r))
  {
    hide IsField, ReadUint32, Skip, Varint, BodyOf;
    var tag := 8 * number + WireType(f);
    assert tag % 8 == WireType(f);
    ConcatAssoc(Varint(tag), BodyOf(number, f), r);
    Uint32ReadsBack(tag, BodyOf(number, f) + r);
    SkipsField(number, f, None, r);
  }

  /** A field that a message does not have, by its number or by its wire type, changes nothing wherever it stands. */
  lemma UnknownFieldIgnored(number: nat, f: Unknown, r: Bytes, left: nat, depth: nat, m: ValueMsg)
    requires IsNumber(number) && IsField(f) && depth <= 100
    requires 8 * number + WireType(f) !in {8, 17, 26, 32, 42, 50}
    ensures var b := FieldBytes(number, f);
            ValueLoop(b + r, |b| + left, depth, m) == ValueLoop(r, left, depth, m)
  {
    hide IsField, ReadUint32, Skip, FieldBytes, BodyOf, StopTag;
    ReadsField(number, f, r);
  }

  lemma UnknownInContainers(number: nat, f: Unknown, r: Bytes, left: nat, depth: nat,
                            items: seq<Json>, fields: seq<Field>, entry: Field)
    requires IsNumber(number) && IsField(f) && depth <= 100 && 8 * number + WireType(f) != 10
    ensures var b := FieldBytes(number, f);
            && ListLoop(b + r, |b| + left, depth, items) == ListLoop(r, left, depth, items)
            && StructLoop(b + r, |b| + left, depth, fields) == StructLoop(r, left, depth, fields)
            && (8 * number + WireType(f) != 18 ==>
                  EntryLoop(b + r, |b| + left, depth, entry) == EntryLoop(r, left, depth, entry))
  {
    hide IsField, ReadUint32, Skip, FieldBytes, BodyOf, StopTag;
    ReadsField(number, f, r);
  }

  /** An end-group tag, or a tag of zero, ends a message before its length is used up. */
  lemma EndTagStops(tag: nat, r: Bytes, left: nat, depth: nat, m: ValueMsg,
                    items: seq<Json>, fields: seq<Field>, entry: Field)
    requires tag < 0x1_0000_0000 && (tag == 0 || tag % 8 == 4) && left > 0 && depth <= 100
    ensures ValueLoop(Varint(tag) + r, left, depth, m) == Ok(Got(m, r))
    ensures ListLoop(Varint(tag) + r, left, depth, items) == Ok(Got(items, r))
    ensures StructLoop(Varint(tag) + r, left, depth, fields) == Ok(Got(fields, r))
    ensures EntryLoop(Varint(tag) + r, left, depth, entry) == Ok(Got(entry, r))
  {
    hide ReadUint32, Varint, ValueMember, ListMember, StructMember, EntryMember;
    Uint32ReadsBack(tag, r);
  }

  // Several members in one message.

  predicate IsScalar(v: Json) {
    v.Null? || v.Bool? || v.Number? || v.Text?
  }

  /** A member more: the last of each kind counts. */
  function With(m: ValueMsg, v: Json): ValueMsg
    requires IsScalar(v)
  {
    match v
    case Null => m.(nullValue := Some(0))
    case Bool(b) => m.(boolValue := Some(b))
    case Number(n) => m.(numberValue := Some(n))
    case Text(t) => m.(stringValue := Some(t))
  }

  lemma MemberJoins(tag: Byte, payload: Bytes, tail: Bytes, left: nat, depth: nat, m: ValueMsg, m': ValueMsg)
    requires depth <= 100 && tag < 128 && KnownValueTag(tag)
    requires ValueMember(payload + tail, tag, depth, m) == Ok(Got(m', tail))
    ensures ValueLoop([tag] + payload + tail, 1 + |payload| + left, depth, m) == ValueLoop(tail, left, depth, m')
  {
    hide ValueMember, ReadUint32, KnownValueTag;
    ConcatAssoc([tag], payload, tail);
    TagReads(tag, payload + tail);
    ValueLoopStep([tag] + payload + tail, 1 + |payload| + left, depth, m, tag, payload + tail);
  }

  lemma ScalarJoins(v: Json, tail: Bytes, left: nat, depth: nat, m: ValueMsg)
    requires IsScalar(v) && WellFormed(v) && Encodable(v) && depth <= 100
    ensures ValueLoop(ValueBytes(v) + tail, |ValueBytes(v)| + left, depth, m)
         == ValueLoop(tail, left, depth, With(m, v))
  {
    hide ValueLoop, ReadUint32, ReadBytes, ReadFixed64, ReadBool, Varint;
    match v
    case Null =>
      Uint32ReadsBack(0, tail);
      MemberJoins(8, Varint(0), tail, left, depth, m, With(m, v));
    case Number(n) =>
      Fixed64ReadsBack(n, tail);
      MemberJoins(17, LittleEndian(n, 8), tail, left, depth, m, With(m, v));
    case Text(t) =>
      FrameReadsBack(t, tail);
      MemberJoins(26, Frame(t), tail, left, depth, m, With(m, v));
    case Bool(b) =>
      BoolReadsBack(b, tail);
      MemberJoins(32, [if b then 1 else 0], tail, left, depth, m, With(m, v));
  }

  function Rank(v: Json): nat
    requires IsScalar(v)
  {
    match v case Text(_) => 0 case Number(_) => 1 case Bool(_) => 2 case Null => 5
  }

  /** Two members in one message: text before number before boolean before null, and the last of one kind. */
  lemma TwoMembers(v: Json, w: Json)
    requires IsScalar(v) && WellFormed(v) && Encodable(v) && IsScalar(w) && WellFormed(w) && Encodable(w)
    ensures var g := DecodeValue(ValueBytes(v) + ValueBytes(w), |ValueBytes(v)| + |ValueBytes(w)|, 0);
            g.Ok? && g.value.rest == [] && Unwrap(g.value.value) == if Rank(w) <= Rank(v) then w else v
  {
    hide ValueLoop, ValueBytes, Encodable, WellFormed;
    ScalarJoins(v, ValueBytes(w), |ValueBytes(w)|, 1, EMPTY);
    ScalarJoins(w, [], 0, 1, With(EMPTY, v));
    assert ValueBytes(w) + [] == ValueBytes(w);
    ValueLoopEnd([], 1, With(With(EMPTY, v), w));
  }
}
