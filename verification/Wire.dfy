/**
 The protobuf wire format (Protocol Buffers Encoding: "Base 128 Varints", "Length-Delimited
 Records"), as the BinaryReader and BinaryWriter used by struct.ts implement it. Reading is
 described on the bytes that remain.
 */
module Wire {
  import opened Wrappers
  import opened BitStrings

  type Bytes = seq<Byte>

  datatype DecodeError = RecursionLimit | PrematureEnd | InvalidVarint | IllegalTag | CannotSkip

  /** A value that was read and the bytes after it. */
  datatype Got<+T> = Got(value: T, rest: Bytes)

  type Reading<+T> = Result<Got<T>, DecodeError>

  const UINT32: nat := 0x1_0000_0000
  const UINT64: nat := 0x1_0000_0000_0000_0000

  // Varints.

  function Varint(n: nat): (b: Bytes)
    ensures |b| >= 1
  {
    if n < 128 then [n] else [n % 128 + 128] + Varint(n / 128)
  }

  /** At most `allowed` bytes, the last one without its high bit. */
  function ReadVarint(r: Bytes, allowed: nat): (g: Reading<nat>)
    ensures g.Ok? ==> |g.value.rest| < |r|
  {
    if allowed == 0 then Err(InvalidVarint)
    else if r == [] then Err(PrematureEnd)
    else if r[0] < 128 then Ok(Got(r[0], r[1..]))
    else match ReadVarint(r[1..], allowed - 1)
      case Err(e) => Err(e)
      case Ok(g) => Ok(Got(r[0] - 128 + 128 * g.value, g.rest))
  }

  function Power128(k: nat): nat {
    if k == 0 then 1 else 128 * Power128(k - 1)
  }

  lemma {:induction false} VarintReadsBack(n: nat, k: nat, tail: Bytes)
    requires k >= 1 && n < Power128(k)
    ensures ReadVarint(Varint(n) + tail, k) == Ok(Got(n, tail))
  {
    var r := Varint(n) + tail;
    if n < 128 {
      assert r[1..] == tail;
    } else {
      VarintReadsBack(n / 128, k - 1, tail);
      assert r[1..] == Varint(n / 128) + tail;
    }
  }

  lemma Uint32FitsVarint()
    ensures UINT32 <= Power128(10)
  {
    assert Power128(2) == 0x4000;
    assert Power128(4) == 0x1000_0000;
    assert Power128(6) == 0x400_0000_0000;
    assert Power128(8) == 0x100_0000_0000_0000;
  }

  /** reader.uint32() and, up to the sign that its caller ignores, reader.int32(). */
  function ReadUint32(r: Bytes): (g: Reading<nat>)
    ensures g.Ok? ==> |g.value.rest| < |r| && g.value.value < UINT32
  {
    match ReadVarint(r, 10)
    case Err(e) => Err(e)
    case Ok(g) => Ok(Got(g.value % UINT32, g.rest))
  }

  /** reader.bool(): any set bit of the low 64. */
  function ReadBool(r: Bytes): (g: Reading<bool>)
    ensures g.Ok? ==> |g.value.rest| < |r|
  {
    match ReadVarint(r, 10)
    case Err(e) => Err(e)
    case Ok(g) => Ok(Got(g.value % UINT64 != 0, g.rest))
  }

  lemma Uint32ReadsBack(n: nat, tail: Bytes)
    requires n < 0x1_0000_0000
    ensures ReadUint32(Varint(n) + tail) == Ok(Got(n, tail))
  {
    hide ReadVarint, Varint, Power128;
    Uint32FitsVarint();
    VarintReadsBack(n, 10, tail);
  }

  /** A varint ends with its first byte below 128, which must be one of the next ten. */
  lemma {:induction false} VarintEnds(r: Bytes, allowed: nat)
    ensures ReadVarint(r, allowed).Ok? <==> exists i :: 0 <= i < allowed && i < |r| && r[i] < 128
    ensures ReadVarint(r, allowed) == Err(InvalidVarint)
       <==> allowed <= |r| && forall i :: 0 <= i < allowed ==> r[i] >= 128
  {
    if allowed > 0 && r != [] && r[0] >= 128 {
      VarintEnds(r[1..], allowed - 1);
      assert forall i :: 0 <= i < |r[1..]| ==> r[1..][i] == r[i + 1];
      if i :| 0 <= i < allowed && i < |r| && r[i] < 128 {
        assert r[1..][i - 1] < 128;
      }
    }
  }

  /** What uint32() accepts, and the low 32 bits it makes of a longer number. */
  lemma Uint32Exactly(r: Bytes, n: nat, tail: Bytes)
    ensures ReadUint32(r).Ok? <==> exists i :: 0 <= i < 10 && i < |r| && r[i] < 128
    ensures ReadUint32(r) == Err(InvalidVarint) <==> |r| >= 10 && forall i :: 0 <= i < 10 ==> r[i] >= 128
    ensures n < Power128(10) ==> ReadUint32(Varint(n) + tail) == Ok(Got(n % 0x1_0000_0000, tail))
    ensures n < Power128(10) ==> ReadBool(Varint(n) + tail) == Ok(Got(n % 0x1_0000_0000_0000_0000 != 0, tail))
  {
    hide ReadVarint, Varint, Power128;
    VarintEnds(r, 10);
    if n < Power128(10) { VarintReadsBack(n, 10, tail); }
  }

  lemma BoolReadsBack(b: bool, tail: Bytes)
    ensures ReadBool([if b then 1 else 0] + tail) == Ok(Got(b, tail))
  {
    var r := [if b then 1 else 0] + tail;
    assert r[1..] == tail;
  }

  // Fixed 64-bit values, little-endian.

  function LittleEndian(n: nat, k: nat): (b: Bytes)
    ensures |b| == k
  {
    if k == 0 then [] else [n % 256] + LittleEndian(n / 256, k - 1)
  }

  function FromLittleEndian(b: Bytes): nat
  {
    if b == [] then 0 else b[0] + 256 * FromLittleEndian(b[1..])
  }

  function Power256(k: nat): nat {
    if k == 0 then 1 else 256 * Power256(k - 1)
  }

  lemma {:induction false} LittleEndianReadsBack(n: nat, k: nat)
    requires n < Power256(k)
    ensures FromLittleEndian(LittleEndian(n, k)) == n
  {
    if k > 0 {
      LittleEndianReadsBack(n / 256, k - 1);
      assert LittleEndian(n, k)[1..] == LittleEndian(n / 256, k - 1);
    }
  }

  lemma {:induction false} FromLittleEndianBound(b: Bytes)
    ensures FromLittleEndian(b) < Power256(|b|)
  {
    if b != [] { FromLittleEndianBound(b[1..]); }
  }

  lemma Power256Of8()
    ensures Power256(8) == UINT64
  {
    assert Power256(2) == 0x1_0000;
    assert Power256(4) == 0x1_0000_0000;
    assert Power256(6) == 0x1_0000_0000_0000;
  }

  function ReadFixed64(r: Bytes): (g: Reading<nat>)
    ensures g.Ok? ==> |g.value.rest| < |r| && g.value.value < UINT64
  {
    if |r| < 8 then Err(PrematureEnd)
    else
      FromLittleEndianBound(r[..8]);
      Power256Of8();
      Ok(Got(FromLittleEndian(r[..8]), r[8..]))
  }

  lemma Fixed64ReadsBack(n: nat, tail: Bytes)
    requires n < 0x1_0000_0000_0000_0000
    ensures ReadFixed64(LittleEndian(n, 8) + tail) == Ok(Got(n, tail))
  {
    Power256Of8();
    LittleEndianReadsBack(n, 8);
    var r := LittleEndian(n, 8) + tail;
    assert r[..8] == LittleEndian(n, 8) && r[8..] == tail;
  }

  // Length-delimited records.

  function Frame(body: Bytes): Bytes
  {
    Varint(|body|) + body
  }

  function ReadBytes(r: Bytes): (g: Reading<Bytes>)
    ensures g.Ok? ==> |g.value.rest| < |r|
  {
    match ReadUint32(r)
    case Err(e) => Err(e)
    case Ok(g) =>
      if g.value > |g.rest| then Err(PrematureEnd)
      else Ok(Got(g.rest[..g.value], g.rest[g.value..]))
  }

  lemma FrameReadsBack(body: Bytes, tail: Bytes)
    requires |body| < 0x1_0000_0000
    ensures ReadUint32(Frame(body) + tail) == Ok(Got(|body|, body + tail))
    ensures ReadBytes(Frame(body) + tail) == Ok(Got(body, tail))
  {
    ConcatAssoc(Varint(|body|), body, tail);
    Uint32ReadsBack(|body|, body + tail);
    hide ReadUint32;
    var r := body + tail;
    assert r[..|body|] == body && r[|body|..] == tail;
  }

  // Skipping unknown fields.

  /** reader.skip(wireType, fieldNo): a group up to its matching end tag, or to any when no number is given. */
  function Skip(r: Bytes, wireType: nat, fieldNo: Option<nat>): (g: Reading<()>)
    ensures g.Ok? ==> |g.value.rest| <= |r|
    decreases |r|, 1
  {
    match wireType
    case 0 => SkipVarint(r)
    case 1 => if |r| < 8 then Err(PrematureEnd) else Ok(Got((), r[8..]))
    case 2 => (match ReadBytes(r) case Err(e) => Err(e) case Ok(g) => Ok(Got((), g.rest)))
    case 3 => SkipGroup(r, fieldNo)
    case 5 => if |r| < 4 then Err(PrematureEnd) else Ok(Got((), r[4..]))
    case _ => Err(CannotSkip)
  }

  function SkipVarint(r: Bytes): (g: Reading<()>)
    ensures g.Ok? ==> |g.value.rest| <= |r|
  {
    if r == [] then Err(PrematureEnd)
    else if r[0] < 128 then Ok(Got((), r[1..]))
    else SkipVarint(r[1..])
  }

  function SkipGroup(r: Bytes, fieldNo: Option<nat>): (g: Reading<()>)
    ensures g.Ok? ==> |g.value.rest| <= |r|
    decreases |r|, 0
  {
    match ReadUint32(r)
    case Err(e) => Err(e)
    case Ok(tag) =>
      var number, wireType := tag.value / 8, tag.value % 8;
      if number == 0 || wireType > 5 then Err(IllegalTag)
      else if wireType == 4 then
        if fieldNo.Some? && fieldNo.value != number then Err(IllegalTag) else Ok(Got((), tag.rest))
      else match Skip(tag.rest, wireType, Some(number))
        case Err(e) => Err(e)
        case Ok(g) => SkipGroup(g.rest, fieldNo)
  }

  // Every reader leaves a suffix of what it was given, so a position describes its progress.

  predicate SuffixOf(rest: Bytes, r: Bytes) {
    |rest| <= |r| && rest == r[|r| - |rest|..]
  }

  lemma SuffixTransitive(a: Bytes, b: Bytes, c: Bytes)
    requires SuffixOf(a, b) && SuffixOf(b, c)
    ensures SuffixOf(a, c)
  {}

  lemma {:induction false} ReadVarintSuffix(r: Bytes, allowed: nat)
    requires ReadVarint(r, allowed).Ok?
    ensures SuffixOf(ReadVarint(r, allowed).value.rest, r)
  {
    if r[0] >= 128 {
      ReadVarintSuffix(r[1..], allowed - 1);
    }
  }

  lemma ReadersSuffix(r: Bytes)
    ensures ReadUint32(r).Ok? ==> SuffixOf(ReadUint32(r).value.rest, r)
    ensures ReadBool(r).Ok? ==> SuffixOf(ReadBool(r).value.rest, r)
    ensures ReadFixed64(r).Ok? ==> SuffixOf(ReadFixed64(r).value.rest, r)
    ensures ReadBytes(r).Ok? ==> SuffixOf(ReadBytes(r).value.rest, r)
  {
    if ReadVarint(r, 10).Ok? {
      ReadVarintSuffix(r, 10);
      hide ReadVarint;
      var g := ReadUint32(r).value;
      if g.value <= |g.rest| {
        SuffixTransitive(g.rest[g.value..], g.rest, r);
      }
    }
  }

  lemma {:induction false} SkipSuffix(r: Bytes, wireType: nat, fieldNo: Option<nat>)
    requires Skip(r, wireType, fieldNo).Ok?
    ensures SuffixOf(Skip(r, wireType, fieldNo).value.rest, r)
    decreases |r|, 1
  {
    ReadersSuffix(r);
    match wireType
    case 0 => SkipVarintSuffix(r);
    case 3 => SkipGroupSuffix(r, fieldNo);
    case _ =>
  }

  lemma {:induction false} SkipVarintSuffix(r: Bytes)
    requires SkipVarint(r).Ok?
    ensures SuffixOf(SkipVarint(r).value.rest, r)
  {
    if r[0] >= 128 {
      SkipVarintSuffix(r[1..]);
      SuffixTransitive(SkipVarint(r).value.rest, r[1..], r);
    }
  }

  lemma {:induction false} SkipGroupSuffix(r: Bytes, fieldNo: Option<nat>)
    requires SkipGroup(r, fieldNo).Ok?
    ensures SuffixOf(SkipGroup(r, fieldNo).value.rest, r)
    decreases |r|, 0
  {
    ReadersSuffix(r);
    hide ReadUint32, Skip, SuffixOf;
    var tag := ReadUint32(r).value;
    var number, wireType := tag.value / 8, tag.value % 8;
    if wireType != 4 {
      SkipSuffix(tag.rest, wireType, Some(number));
      var g := Skip(tag.rest, wireType, Some(number)).value;
      SkipGroupSuffix(g.rest, fieldNo);
      SuffixTransitive(g.rest, tag.rest, r);
      SuffixTransitive(SkipGroup(r, fieldNo).value.rest, g.rest, r);
    }
  }
}
