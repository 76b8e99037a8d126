/**
 csharp/SopsEncrypt.cs, Bech32: the encoder and the strict decoder. The case mapping of .NET is a parameter,
 of which three laws are used: it is the usual one on ASCII, lower-casing twice changes nothing more, and
 only '1' is lower-cased to '1'.
 */
module Bech32 {
  import opened Wrappers
  import opened BitStrings
  import opened Regrouping
  import opened Checksum
  import opened BurstDetection
  import opened PairDetection

  const CHARSET := "qpzry9x8gf2tvdw0s3jn54khce6mua7l"

  datatype Bech32Error = MixedCase | BadSeparator | InvalidCharacter | InvalidChecksum | BadPadding

  datatype Decoded = Decoded(hrp: string, data: seq<Byte>)

  // ToLowerInvariant and ToUpperInvariant, character by character.

  datatype Casing = Casing(lower: char -> char, upper: char -> char)

  function AsciiLower(c: char): char {
    if 'A' <= c <= 'Z' then (c as int + 32) as char else c
  }

  function AsciiUpper(c: char): char {
    if 'a' <= c <= 'z' then (c as int - 32) as char else c
  }

  ghost predicate Lawful(u: Casing) {
    && (forall c: char :: c as int < 128 ==> u.lower(c) == AsciiLower(c) && u.upper(c) == AsciiUpper(c))
    && (forall c: char :: u.lower(u.lower(c)) == u.lower(c))
    && (forall c: char :: u.lower(c) == '1' ==> c == '1')
  }

  lemma AsciiIsLawful()
    ensures Lawful(Casing(AsciiLower, AsciiUpper))
  {}

  function Lower(u: Casing, s: string): (r: string)
    ensures |r| == |s|
    ensures forall i :: 0 <= i < |s| ==> r[i] == u.lower(s[i])
  {
    seq(|s|, i requires 0 <= i < |s| => u.lower(s[i]))
  }

  function Upper(u: Casing, s: string): (r: string)
    ensures |r| == |s|
    ensures forall i :: 0 <= i < |s| ==> r[i] == u.upper(s[i])
  {
    seq(|s|, i requires 0 <= i < |s| => u.upper(s[i]))
  }

  predicate Mixed(u: Casing, s: string) {
    Lower(u, s) != s && Upper(u, s) != s
  }

  /** Charset.IndexOf(c), -1 when absent. */
  function IndexOf(c: char): (i: int)
    ensures -1 <= i < 32
    ensures i >= 0 ==> CHARSET[i] == c
    ensures i < 0 ==> c !in CHARSET
  {
    FirstIndex(CHARSET, c)
  }

  function FirstIndex(s: string, c: char): (i: int)
    ensures -1 <= i < |s|
    ensures i >= 0 ==> s[i] == c
    ensures i < 0 ==> c !in s
  {
    if s == "" then -1
    else if s[0] == c then 0
    else
      var i := FirstIndex(s[1..], c);
      assert s == [s[0]] + s[1..];
      if i < 0 then -1 else i + 1
  }

  /** s.LastIndexOf('1'), -1 when absent. */
  function LastSeparator(s: string): (pos: int)
    ensures -1 <= pos < |s|
    ensures pos >= 0 ==> s[pos] == '1'
    ensures forall i :: pos < i < |s| ==> s[i] != '1'
  {
    if s == "" then -1
    else if s[|s| - 1] == '1' then |s| - 1
    else LastSeparator(s[..|s| - 1])
  }

  function Chars(vs: seq<Byte>): (s: string)
    requires Symbols(vs)
    ensures |s| == |vs|
    ensures forall i :: 0 <= i < |vs| ==> s[i] == CHARSET[vs[i]]
  {
    seq(|vs|, i requires 0 <= i < |vs| => CHARSET[vs[i]])
  }

  /** Every character, lower-cased, is in the charset. */
  predicate InCharset(u: Casing, s: string) {
    forall i :: 0 <= i < |s| ==> u.lower(s[i]) in CHARSET
  }

  function Indices(u: Casing, s: string): (vs: seq<Byte>)
    requires InCharset(u, s)
    ensures |vs| == |s| && Symbols(vs)
    ensures forall i :: 0 <= i < |s| ==> vs[i] == IndexOf(u.lower(s[i]))
  {
    seq(|s|, i requires 0 <= i < |s| => IndexOf(u.lower(s[i])))
  }

  /** HrpExpand: high bits, cut to a byte, a zero, low bits. */
  function Expand(u: Casing, hrp: string): (vs: seq<Byte>)
    ensures |vs| == 2 * |hrp| + 1
  {
    var h := Lower(u, hrp);
    seq(|h|, i requires 0 <= i < |h| => h[i] as int / 32 % 256)
    + [0]
    + seq(|h|, i requires 0 <= i < |h| => h[i] as int % 32)
  }

  /** The symbols that carry the data: regrouping bytes to 5 bits with padding never fails. */
  function DataSymbols(data: seq<Byte>): (vs: seq<Byte>)
    ensures Regroup(data, 8, 5, true) == Ok(vs)
    ensures Symbols(vs)
  {
    PaddedThenExact(data, 5);
    Pow2Of8();
    UnpackPack(Unpack(data, 8) + Padding(Unpack(data, 8), 5), 5);
    Regroup(data, 8, 5, true).value
  }

  /** What Encode writes. */
  function Encoded(u: Casing, hrp: string, data: seq<Byte>): string
  {
    var vs := DataSymbols(data);
    Lower(u, hrp) + "1" + Chars(vs) + Chars(ChecksumOf(Expand(u, hrp) + vs))
  }

  /** What Decode answers. */
  function Decoding(u: Casing, s: string): Result<Decoded, Bech32Error>
  {
    var pos := LastSeparator(s);
    if Mixed(u, s) then Err(MixedCase)
    else if pos < 1 || pos + 7 > |s| then Err(BadSeparator)
    else if !InCharset(u, s[pos + 1..]) then Err(InvalidCharacter)
    else
      var vs := Indices(u, s[pos + 1..]);
      if !Valid(Expand(u, s[..pos]) + vs) then Err(InvalidChecksum)
      else match Regroup(vs[..|vs| - 6], 5, 8, false)
        case Err(_) => Err(BadPadding)
        case Ok(raw) => Ok(Decoded(s[..pos], raw))
  }

  // The imperative code.

  method Encode(u: Casing, hrp: string, data: seq<Byte>) returns (s: string)
    requires Lawful(u)
    ensures s == Encoded(u, hrp, data)
  {
    hide *;
    var regrouped := ConvertBits(data, 8, 5, true);
    var values := DataSymbols(data);
    assert regrouped == Ok(values);
    values := regrouped.value;
    s := Lower(u, hrp);
    s := s + "1";
    s := AppendChars(s, values);
    ExpandLower(u, hrp);
    var expanded := HrpExpand(u, Lower(u, hrp));
    var checksum := CreateChecksum(expanded, values);
    s := AppendChars(s, checksum);
    EncodedIs(u, hrp, data);
  }

  lemma EncodedIs(u: Casing, hrp: string, data: seq<Byte>)
    ensures var vs := DataSymbols(data);
            Encoded(u, hrp, data) == Lower(u, hrp) + "1" + Chars(vs) + Chars(ChecksumOf(Expand(u, hrp) + vs))
  {}

  method AppendChars(s0: string, values: seq<Byte>) returns (s: string)
    requires Symbols(values)
    ensures s == s0 + Chars(values)
  {
    s := s0;
    for i := 0 to |values|
      invariant s == s0 + Chars(values)[..i]
    {
      s := s + [CHARSET[values[i]]];
    }
    assert Chars(values)[..|values|] == Chars(values);
  }

  /** High bits, a zero, low bits: together they give the lower-cased characters back. */
  lemma ExpandMeans(u: Casing, hrp: string, i: nat)
    ensures var vs, n := Expand(u, hrp), |hrp|;
            && |vs| == 2 * n + 1 && vs[n] == 0
            && (i < n ==> vs[n + 1 + i] < 32)
            && (i < n && u.lower(hrp[i]) as int < 0x2000 ==>
                  (32 * (vs[i] as int) + vs[n + 1 + i] as int) == u.lower(hrp[i]) as int)
  {}

  method HrpExpand(u: Casing, hrp: string) returns (ret: seq<Byte>)
    ensures ret == Expand(u, hrp)
    ensures |ret| == 2 * |hrp| + 1 && ret[|hrp|] == 0
    ensures forall i :: 0 <= i < |hrp| ==> ret[i] == u.lower(hrp[i]) as int / 32 % 256
    ensures forall i :: 0 <= i < |hrp| ==> ret[|hrp| + 1 + i] == u.lower(hrp[i]) as int % 32
  {
    var h := Lower(u, hrp);
    ret := [];
    for i := 0 to |h|
      invariant ret == Expand(u, hrp)[..i]
    {
      ret := ret + [h[i] as int / 32 % 256];
    }
    ret := ret + [0];
    for i := 0 to |h|
      invariant ret == Expand(u, hrp)[..|h| + 1 + i]
    {
      ret := ret + [h[i] as int % 32];
    }
  }

  lemma LowerTwice(u: Casing, s: string)
    requires Lawful(u)
    ensures Lower(u, Lower(u, s)) == Lower(u, s)
  {}

  method Decode(u: Casing, s0: string) returns (r: Result<Decoded, Bech32Error>)
    requires Lawful(u)
    ensures r == Decoding(u, s0)
  {
    hide Lower, Upper, Expand, IndexOf, LastSeparator, Indices, Regroup, Run, Pow2, CHARSET, InCharset;
    var s := s0;
    if Lower(u, s) != s && Upper(u, s) != s {
      return Err(MixedCase);
    }
    var pos := LastSeparator(s);
    if pos < 1 || pos + 7 > |s| {
      return Err(BadSeparator);
    }
    var hrp := s[..pos];
    s := Lower(u, s);
    LowerParts(u, s0, pos);
    IndicesOfLower(u, s0[pos + 1..]);
    var read := ReadSymbols(u, s[pos + 1..]);
    if read.None? {
      return Err(InvalidCharacter);
    }
    var data := read.value;
    var expanded := HrpExpand(u, hrp);
    var chk := Polymod(expanded + data);
    if chk != 1 {
      return Err(InvalidChecksum);
    }
    var raw := ConvertBits(data[..|data| - 6], 5, 8, false);
    match raw
    case Err(_) => return Err(BadPadding);
    case Ok(bytes) => return Ok(Decoded(hrp, bytes));
  }

  /** The loop of Decode over the lower-cased data part; None when a character is not in the charset. */
  method ReadSymbols(u: Casing, part: string) returns (r: Option<seq<Byte>>)
    requires Lower(u, part) == part
    ensures r == if InCharset(u, part) then Some(Indices(u, part)) else None
  {
    hide IndexOf;
    var data: seq<Byte> := [];
    for i := 0 to |part|
      invariant InCharset(u, part[..i])
      invariant data == Indices(u, part[..i])
    {
      assert part[i] == u.lower(part[i]);
      var d := IndexOf(part[i]);
      if d == -1 {
        return None;
      }
      assert part[i] in CHARSET;
      assert part[..i + 1] == part[..i] + [part[i]];
      data := data + [d];
    }
    assert part[..|part|] == part;
    return Some(data);
  }

  // Facts about the charset.

  lemma CharsetFacts(u: Casing, p: nat)
    requires Lawful(u)
    requires p < 32
    ensures IndexOf(CHARSET[p]) == p
    ensures u.lower(CHARSET[p]) == CHARSET[p] && CHARSET[p] != '1' && CHARSET[p] as int < 128
  {
    CharsetDistinct();
    assert CHARSET[p] in CHARSET;
    CharsetPlain(u, p);
  }

  lemma CharsetPlain(u: Casing, p: nat)
    requires Lawful(u)
    requires p < 32
    ensures u.lower(CHARSET[p]) == CHARSET[p] && CHARSET[p] != '1' && CHARSET[p] as int < 128
  {}

  lemma CharsetDistinct()
    ensures forall i, j :: 0 <= i < j < 32 ==> CHARSET[i] != CHARSET[j]
  {}

  lemma CharsPlain(u: Casing, vs: seq<Byte>)
    requires Lawful(u)
    requires Symbols(vs)
    ensures Lower(u, Chars(vs)) == Chars(vs)
    ensures forall i :: 0 <= i < |vs| ==> Chars(vs)[i] != '1'
    ensures InCharset(u, Chars(vs)) && Indices(u, Chars(vs)) == vs
  {
    forall i | 0 <= i < |vs|
      ensures u.lower(Chars(vs)[i]) == Chars(vs)[i] && Chars(vs)[i] as int < 128 && Chars(vs)[i] != '1'
      ensures Chars(vs)[i] in CHARSET && IndexOf(Chars(vs)[i]) == vs[i]
    {
      CharsetFacts(u, vs[i]);
    }
  }

  lemma CharsOfIndices(u: Casing, s: string)
    requires InCharset(u, s)
    ensures Chars(Indices(u, s)) == Lower(u, s)
  {
    forall i | 0 <= i < |s| ensures Chars(Indices(u, s))[i] == Lower(u, s)[i] {
      assert IndexOf(u.lower(s[i])) >= 0;
    }
  }

  lemma SeparatorUnique(s: string, pos: nat)
    requires pos < |s| && s[pos] == '1' && forall i :: pos < i < |s| ==> s[i] != '1'
    ensures LastSeparator(s) == pos
  {}

  lemma LowerAppend(u: Casing, a: string, b: string)
    ensures Lower(u, a + b) == Lower(u, a) + Lower(u, b)
  {}

  lemma ExpandLower(u: Casing, hrp: string)
    requires Lawful(u)
    ensures Expand(u, Lower(u, hrp)) == Expand(u, hrp)
  {
    LowerTwice(u, hrp);
  }

  lemma CharsAppend(a: seq<Byte>, b: seq<Byte>)
    requires Symbols(a) && Symbols(b)
    ensures Symbols(a + b) && Chars(a + b) == Chars(a) + Chars(b)
  {}

  /** The data part of an encoding: data symbols and checksum. */
  function Payload(u: Casing, hrp: string, data: seq<Byte>): (vs: seq<Byte>)
    ensures Symbols(vs) && |vs| >= 6
  {
    DataSymbols(data) + ChecksumOf(Expand(u, hrp) + DataSymbols(data))
  }

  lemma EncodedShape(u: Casing, hrp: string, data: seq<Byte>)
    requires Lawful(u)
    ensures Encoded(u, hrp, data) == Lower(u, hrp) + "1" + Chars(Payload(u, hrp, data))
    ensures Lower(u, Encoded(u, hrp, data)) == Encoded(u, hrp, data)
    ensures LastSeparator(Encoded(u, hrp, data)) == |hrp|
  {
    var vs := DataSymbols(data);
    var c := ChecksumOf(Expand(u, hrp) + vs);
    hide Run, DataSymbols, ChecksumOf, LastSeparator, Expand, IndexOf, CHARSET, Lower;
    CharsAppend(vs, c);
    ConcatAssoc(Lower(u, hrp) + "1", Chars(vs), Chars(c));
    PartsShape(u, hrp, Chars(Payload(u, hrp, data)), Payload(u, hrp, data));
  }

  lemma PartsShape(u: Casing, hrp: string, chars: string, payload: seq<Byte>)
    requires Lawful(u) && Symbols(payload) && chars == Chars(payload)
    ensures var s := Lower(u, hrp) + "1" + chars;
            Lower(u, s) == s && LastSeparator(s) == |hrp|
  {
    hide LastSeparator, Lower, Chars, CHARSET, InCharset, Indices;
    var s := Lower(u, hrp) + "1" + chars;
    CharsPlain(u, payload);
    LowerTwice(u, hrp);
    LowerAppend(u, Lower(u, hrp), "1");
    LowerAppend(u, Lower(u, hrp) + "1", chars);
    LowerOfOne(u);
    ExpandLower(u, hrp);
    SeparatorUnique(s, |hrp|);
  }

  lemma LowerOfOne(u: Casing)
    requires Lawful(u)
    ensures Lower(u, "1") == "1"
  {}

  /** Encode and then Decode: the lower-cased prefix and the data come back; only an empty prefix is refused. */
  lemma RoundTrip(u: Casing, hrp: string, data: seq<Byte>)
    requires Lawful(u)
    ensures Decoding(u, Encoded(u, hrp, data))
         == if hrp == "" then Err(BadSeparator) else Ok(Decoded(Lower(u, hrp), data))
  {
    hide Run, ChecksumOf, LastSeparator, Expand, IndexOf, CHARSET, Encoded, Regroup, Lower, Upper;
    EncodedShape(u, hrp, data);
    var s := Encoded(u, hrp, data);
    var vs := DataSymbols(data);
    var payload := Payload(u, hrp, data);
    if hrp != "" {
      assert s[..|hrp|] == Lower(u, hrp);
      assert s[|hrp| + 1..] == Chars(payload);
      CharsPlain(u, payload);
      ExpandLower(u, hrp);
      ConcatAssoc(Expand(u, hrp), vs, ChecksumOf(Expand(u, hrp) + vs));
      ChecksumValid(Expand(u, hrp) + vs);
      assert payload[..|payload| - 6] == vs;
      PaddedThenExact(data, 5);
    }
  }

  lemma SymbolsAppend(a: seq<Byte>, b: seq<Byte>)
    ensures Symbols(a + b) <==> Symbols(a) && Symbols(b)
  {
    assert forall i :: 0 <= i < |a| ==> a[i] == (a + b)[i];
    assert forall i :: 0 <= i < |b| ==> b[i] == (a + b)[|a| + i];
  }

  /** Decode accepts only what Encode writes: an accepted string is, lower-cased, the encoding of the answer. */
  lemma Canonical(u: Casing, s: string)
    requires Lawful(u)
    requires Decoding(u, s).Ok?
    ensures var d := Decoding(u, s).value;
            && d.hrp != "" && d.hrp <= s
            && Encoded(u, d.hrp, d.data) == Lower(u, s)
            && !Mixed(u, s)
  {
    hide Run, ChecksumOf, Expand, IndexOf, CHARSET, Lower, Upper, Regroup;
    var pos := LastSeparator(s);
    hide LastSeparator;
    var hrp, part := s[..pos], s[pos + 1..];
    var vs := Indices(u, part);
    var n := |vs| - 6;
    var data := Decoding(u, s).value.data;
    assert Regroup(vs[..n], 5, 8, false) == Ok(data);
    ExactThenPadded(vs[..n], 5);
    assert DataSymbols(data) == vs[..n];
    SymbolsAppend(vs[..n], vs[n..]);
    assert vs == vs[..n] + vs[n..];
    ConcatAssoc(Expand(u, hrp), vs[..n], vs[n..]);
    ChecksumUnique(Expand(u, hrp) + vs[..n], vs[n..]);
    CharsAppend(vs[..n], vs[n..]);
    CharsOfIndices(u, part);
    ConcatAssoc(Lower(u, hrp) + "1", Chars(vs[..n]), Chars(vs[n..]));
    assert s == hrp + "1" + part;
    LowerAppend(u, hrp, "1");
    LowerAppend(u, hrp + "1", part);
    LowerOfOne(u);
  }

  /** Exactly which strings are accepted, and with what answer. */
  lemma AcceptedExactly(u: Casing, s: string, hrp: string, data: seq<Byte>)
    requires Lawful(u)
    ensures Decoding(u, s) == Ok(Decoded(hrp, data))
       <==> !Mixed(u, s) && hrp != "" && hrp <= s && Encoded(u, hrp, data) == Lower(u, s)
  {
    hide Run, ChecksumOf, Expand, IndexOf, CHARSET, Regroup, Decoding, Encoded, Lower, Upper;
    if Decoding(u, s) == Ok(Decoded(hrp, data)) {
      Canonical(u, s);
    }
    if !Mixed(u, s) && hrp != "" && hrp <= s && Encoded(u, hrp, data) == Lower(u, s) {
      CaseDoesNotMatter(u, s);
      RoundTrip(u, hrp, data);
      assert s[..|hrp|] == hrp;
    }
  }

  /** A string of one case is answered as its lower-cased form is, except that the prefix keeps its case. */
  lemma CaseDoesNotMatter(u: Casing, s: string)
    requires Lawful(u) && !Mixed(u, s)
    ensures Decoding(u, Lower(u, s)).Err? ==> Decoding(u, s) == Decoding(u, Lower(u, s))
    ensures Decoding(u, Lower(u, s)).Ok? ==>
              var d := Decoding(u, Lower(u, s)).value;
              |d.hrp| <= |s| && Decoding(u, s) == Ok(Decoded(s[..|d.hrp|], d.data))
  {
    var l := Lower(u, s);
    var pos := LastSeparator(s);
    hide Upper, LastSeparator, Run, IndexOf, Regroup, Expand, CHARSET, Indices;
    LowerTwice(u, s);
    SeparatorOfLower(u, s);
    if 1 <= pos {
      LowerParts(u, s, pos);
      hide Lower;
      ExpandLower(u, s[..pos]);
      IndicesOfLower(u, s[pos + 1..]);
    }
  }

  lemma LowerParts(u: Casing, s: string, pos: nat)
    requires pos < |s|
    ensures Lower(u, s[..pos]) == Lower(u, s)[..pos]
    ensures Lower(u, s[pos + 1..]) == Lower(u, s)[pos + 1..]
  {}

  lemma SeparatorOfLower(u: Casing, s: string)
    requires Lawful(u)
    ensures LastSeparator(Lower(u, s)) == LastSeparator(s)
  {
    var pos := LastSeparator(s);
    var l := Lower(u, s);
    forall i | 0 <= i < |s| ensures l[i] == '1' <==> s[i] == '1' {}
    if pos >= 0 {
      hide LastSeparator;
      SeparatorUnique(l, pos);
    } else {
      forall i | 0 <= i < |l| ensures l[i] != '1' {}
    }
  }

  lemma IndicesOfLower(u: Casing, s: string)
    requires Lawful(u)
    ensures InCharset(u, Lower(u, s)) <==> InCharset(u, s)
    ensures InCharset(u, s) ==> Indices(u, Lower(u, s)) == Indices(u, s)
  {
    forall i | 0 <= i < |s| ensures u.lower(Lower(u, s)[i]) == u.lower(s[i]) {}
  }

  /** Two accepted strings with the same prefix and data differ at most in case. */
  lemma DecodeInjective(u: Casing, s: string, t: string)
    requires Lawful(u)
    requires Decoding(u, s).Ok? && Decoding(u, s) == Decoding(u, t)
    ensures Lower(u, s) == Lower(u, t)
  {
    hide Decoding, Encoded;
    Canonical(u, s);
    Canonical(u, t);
  }

  /**
   Changing any characters inside six consecutive positions of the data part of an accepted
   string to other charset characters (other than in case) makes the checksum test fail, unless
   the case test has failed before.
   */
  lemma BurstOfCharacters(u: Casing, s: string, t: string, from: nat)
    requires Lawful(u)
    requires Decoding(u, s).Ok? && from > LastSeparator(s)
    requires AgreeOutside(s, t, from) && WindowInside(u, t, from)
    requires Lower(u, s) != Lower(u, t)
    ensures Decoding(u, t) == Err(if Mixed(u, t) then MixedCase else InvalidChecksum)
  {
    hide Run, Lower, Upper, IndexOf, CHARSET, Regroup, Indices, Expand, Valid;
    var pos := LastSeparator(s);
    SameSeparator(u, s, t, from);
    hide LastSeparator;
    var x, y := s[pos + 1..], t[pos + 1..];
    TailWindow(u, s, t, pos, from);
    hide AgreeOutside;
    WindowOfIndices(u, x, y, from - pos - 1);
    SameIndicesSameLower(u, s, t, pos);
    WindowDetected(Expand(u, s[..pos]), Indices(u, x), Indices(u, y), from - pos - 1);
  }

  /** The two strings agree but at i and j, where the second has charset characters that differ but in case. */
  predicate ChangedAt(u: Casing, s: string, t: string, i: nat, j: nat)
  {
    && i < j < |s| == |t|
    && (forall k :: 0 <= k < |s| && k != i && k != j ==> t[k] == s[k])
    && u.lower(t[i]) in CHARSET && u.lower(t[j]) in CHARSET
    && u.lower(t[i]) != u.lower(s[i]) && u.lower(t[j]) != u.lower(s[j])
  }

  /** Changing two characters of the data part of an accepted string is noticed as well, at most distances. */
  lemma PairOfCharacters(u: Casing, s: string, t: string, i: nat, j: nat)
    requires Lawful(u)
    requires Decoding(u, s).Ok? && LastSeparator(s) < i && ChangedAt(u, s, t, i, j)
    requires (j - i) % 1023 != 0
    ensures Decoding(u, t) == Err(if Mixed(u, t) then MixedCase else InvalidChecksum)
  {
    hide Run, Lower, Upper, IndexOf, CHARSET, Regroup, Indices, Expand, Valid;
    var pos := LastSeparator(s);
    PairSeparator(u, s, t, i, j);
    hide LastSeparator;
    assert t[..pos] == s[..pos];
    var x, y := s[pos + 1..], t[pos + 1..];
    var m, n := i - pos - 1, j - pos - 1;
    PairOfIndices(u, x, y, m, n);
    PairDetected(Expand(u, s[..pos]), Indices(u, x), Indices(u, y), m, n);
  }

  lemma PairSeparator(u: Casing, s: string, t: string, i: nat, j: nat)
    requires Lawful(u) && 0 <= LastSeparator(s) < i && ChangedAt(u, s, t, i, j)
    ensures LastSeparator(t) == LastSeparator(s)
  {
    var pos := LastSeparator(s);
    hide LastSeparator;
    OneNotInCharset();
    SeparatorUnique(t, pos);
  }

  lemma PairOfIndices(u: Casing, x: string, y: string, m: nat, n: nat)
    requires InCharset(u, x) && ChangedAt(u, x, y, m, n)
    ensures InCharset(u, y)
    ensures var v, w := Indices(u, x), Indices(u, y);
            && v[m] != w[m] && v[n] != w[n]
            && forall k :: 0 <= k < |x| && k != m && k != n ==> v[k] == w[k]
  {
    hide CHARSET;
    forall k | 0 <= k < |y| ensures u.lower(y[k]) in CHARSET {
      assert k != m && k != n ==> y[k] == x[k];
    }
  }

  lemma PairDetected(prefix: seq<Byte>, v: seq<Byte>, w: seq<Byte>, m: nat, n: nat)
    requires Symbols(v) && Symbols(w) && m < n < |v| == |w| && (n - m) % 1023 != 0
    requires v[m] != w[m] && v[n] != w[n]
    requires forall k :: 0 <= k < |v| && k != m && k != n ==> v[k] == w[k]
    requires Valid(prefix + v)
    ensures !Valid(prefix + w)
  {
    hide Valid;
    assert v[..m] == w[..m] && v[m + 1..n] == w[m + 1..n] && v[n + 1..] == w[n + 1..];
    InTwoPlaces(prefix, v, m, n);
    InTwoPlaces(prefix, w, m, n);
    TwoChangesExactly(prefix + v[..m], v[m], w[m], v[m + 1..n], v[n], w[n], v[n + 1..]);
  }

  lemma InTwoPlaces(prefix: seq<Byte>, v: seq<Byte>, m: nat, n: nat)
    requires m < n < |v|
    ensures prefix + v == WithTwo(prefix + v[..m], v[m], v[m + 1..n], v[n], v[n + 1..])
  {}

  /** Two strings that agree outside the window [k, k + 6). */
  predicate AgreeOutside<T(==)>(x: seq<T>, y: seq<T>, k: nat) {
    |x| == |y| && forall i :: 0 <= i < |x| && !(k <= i < k + 6) ==> x[i] == y[i]
  }

  /** Inside the window only charset characters. */
  predicate WindowInside(u: Casing, y: string, k: nat) {
    forall i :: k <= i < |y| && i < k + 6 ==> u.lower(y[i]) in CHARSET
  }

  lemma TailWindow(u: Casing, s: string, t: string, pos: nat, from: nat)
    requires pos < |s| && pos < from && AgreeOutside(s, t, from) && WindowInside(u, t, from)
    ensures s[..pos] == t[..pos] && s[pos] == t[pos]
    ensures AgreeOutside(s[pos + 1..], t[pos + 1..], from - pos - 1)
    ensures WindowInside(u, t[pos + 1..], from - pos - 1)
  {
    hide CHARSET;
  }

  lemma WindowOfIndices(u: Casing, x: string, y: string, k: nat)
    requires InCharset(u, x) && AgreeOutside(x, y, k) && WindowInside(u, y, k)
    ensures InCharset(u, y) && AgreeOutside(Indices(u, x), Indices(u, y), k)
  {
    hide CHARSET;
    forall i | 0 <= i < |y| ensures u.lower(y[i]) in CHARSET {
      assert !(k <= i < k + 6) ==> x[i] == y[i];
    }
  }

  lemma ThreeParts(prefix: seq<Byte>, vs: seq<Byte>, k: nat, m: nat)
    requires k <= m <= |vs|
    ensures prefix + vs == prefix + vs[..k] + vs[k..m] + vs[m..]
  {
    assert vs == vs[..k] + vs[k..m] + vs[m..];
  }

  lemma WindowDetected(prefix: seq<Byte>, vs: seq<Byte>, ws: seq<Byte>, from: nat)
    requires Symbols(vs) && Symbols(ws)
    requires AgreeOutside(vs, ws, from) && vs != ws
    requires Valid(prefix + vs)
    ensures !Valid(prefix + ws)
  {
    hide Run;
    var k := if from <= |vs| then from else |vs|;
    var m := if k + 6 <= |vs| then k + 6 else |vs|;
    assert vs[..k] == ws[..k] && vs[m..] == ws[m..];
    var before := prefix + vs[..k];
    ThreeParts(prefix, vs, k, m);
    ThreeParts(prefix, ws, k, m);
    BurstDetected(before, vs[k..m], ws[k..m], vs[m..]);
  }

  lemma SameIndicesSameLower(u: Casing, s: string, t: string, pos: nat)
    requires pos < |s| && |s| == |t| && s[..pos] == t[..pos] && s[pos] == t[pos]
    requires InCharset(u, s[pos + 1..]) && InCharset(u, t[pos + 1..])
    ensures Indices(u, s[pos + 1..]) == Indices(u, t[pos + 1..]) ==> Lower(u, s) == Lower(u, t)
  {
    hide CHARSET, Indices, Lower, IndexOf;
    CharsOfIndices(u, s[pos + 1..]);
    CharsOfIndices(u, t[pos + 1..]);
    assert s[..pos + 1] == t[..pos + 1];
    assert s == s[..pos + 1] + s[pos + 1..] && t == t[..pos + 1] + t[pos + 1..];
    LowerAppend(u, s[..pos + 1], s[pos + 1..]);
    LowerAppend(u, t[..pos + 1], t[pos + 1..]);
  }

  lemma SameSeparator(u: Casing, s: string, t: string, from: nat)
    requires Lawful(u)
    requires from > LastSeparator(s) >= 0
    requires AgreeOutside(s, t, from) && WindowInside(u, t, from)
    ensures LastSeparator(t) == LastSeparator(s)
  {
    var pos := LastSeparator(s);
    hide LastSeparator;
    forall i | pos < i < |t| ensures t[i] != '1' {
      if from <= i < from + 6 && t[i] == '1' {
        OneNotInCharset();
      }
    }
    SeparatorUnique(t, pos);
  }

  lemma OneNotInCharset()
    ensures '1' !in CHARSET
  {}
}
