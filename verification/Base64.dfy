/**
 Base64 as RFC 4648 section 4 defines it, which Convert.ToBase64String implements: bytes
 regrouped to six bits, one alphabet character each, and '=' up to a multiple of four.
 The unpadded form is what AgeFile.Base64RawStd leaves after TrimEnd('=').
 */
module Base64 {
  import opened Wrappers
  import opened BitStrings
  import opened Regrouping

  predicate Sextets(vs: seq<Byte>) {
    forall i :: 0 <= i < |vs| ==> vs[i] < 64
  }

  function AlphabetChar(v: Byte): char
    requires v < 64
  {
    if v < 26 then ('A' as int + v) as char
    else if v < 52 then ('a' as int + v - 26) as char
    else if v < 62 then ('0' as int + v - 52) as char
    else if v == 62 then '+'
    else '/'
  }

  /** The position of c in the alphabet, -1 when it is not there. */
  function AlphabetIndex(c: char): (i: int)
    ensures -1 <= i < 64
    ensures i >= 0 ==> AlphabetChar(i) == c
  {
    if 'A' <= c <= 'Z' then c as int - 'A' as int
    else if 'a' <= c <= 'z' then c as int - 'a' as int + 26
    else if '0' <= c <= '9' then c as int - '0' as int + 52
    else if c == '+' then 62
    else if c == '/' then 63
    else -1
  }

  lemma AlphabetFacts(v: Byte)
    requires v < 64
    ensures AlphabetIndex(AlphabetChar(v)) == v
    ensures AlphabetChar(v) != '=' && AlphabetChar(v) != '\n' && AlphabetChar(v) as int < 128
  {}

  function Sixes(data: seq<Byte>): (vs: seq<Byte>)
    ensures Regroup(data, 8, 6, true) == Ok(vs) && Sextets(vs)
  {
    PaddedThenExact(data, 6);
    Pow2Of8();
    UnpackPack(Unpack(data, 8) + Padding(Unpack(data, 8), 6), 6);
    Regroup(data, 8, 6, true).value
  }

  function Text(vs: seq<Byte>): (s: string)
    requires Sextets(vs)
    ensures |s| == |vs|
    ensures forall i :: 0 <= i < |vs| ==> s[i] == AlphabetChar(vs[i])
  {
    seq(|vs|, i requires 0 <= i < |vs| => AlphabetChar(vs[i]))
  }

  function Raw(data: seq<Byte>): string
  {
    Text(Sixes(data))
  }

  function Filler(n: nat): string
  {
    match n % 4 case 0 => "" case 1 => "===" case 2 => "==" case 3 => "="
  }

  function Padded(data: seq<Byte>): string
  {
    Raw(data) + Filler(|Raw(data)|)
  }

  function TrimEnd(s: string, c: char): string
  {
    if s != "" && s[|s| - 1] == c then TrimEnd(s[..|s| - 1], c) else s
  }

  predicate AllAlphabet(s: string) {
    forall i :: 0 <= i < |s| ==> AlphabetIndex(s[i]) >= 0
  }

  function Values(s: string): (vs: seq<Byte>)
    requires AllAlphabet(s)
    ensures |vs| == |s| && Sextets(vs)
    ensures forall i :: 0 <= i < |s| ==> vs[i] == AlphabetIndex(s[i])
  {
    seq(|s|, i requires 0 <= i < |s| => AlphabetIndex(s[i]))
  }

  function DecodeRaw(s: string): Option<seq<Byte>>
  {
    if !AllAlphabet(s) then None
    else match Regroup(Values(s), 6, 8, false)
      case Err(_) => None
      case Ok(data) => Some(data)
  }

  function DecodePadded(s: string): Option<seq<Byte>>
  {
    var t := TrimEnd(s, '=');
    if s == t + Filler(|t|) then DecodeRaw(t) else None
  }

  lemma TextFacts(vs: seq<Byte>)
    requires Sextets(vs)
    ensures '\n' !in Text(vs) && '=' !in Text(vs)
    ensures forall i :: 0 <= i < |vs| ==> Text(vs)[i] as int < 128
    ensures AllAlphabet(Text(vs)) && Values(Text(vs)) == vs
  {
    forall i | 0 <= i < |vs|
      ensures Text(vs)[i] != '\n' && Text(vs)[i] != '=' && Text(vs)[i] as int < 128
      ensures AlphabetIndex(Text(vs)[i]) == vs[i]
    {
      AlphabetFacts(vs[i]);
    }
  }

  lemma RawRoundTrip(data: seq<Byte>)
    ensures DecodeRaw(Raw(data)) == Some(data)
    ensures '\n' !in Raw(data) && '=' !in Raw(data)
    ensures forall i :: 0 <= i < |Raw(data)| ==> Raw(data)[i] as int < 128
  {
    hide Regroup;
    TextFacts(Sixes(data));
    PaddedThenExact(data, 6);
  }

  lemma {:induction false} TrimEndOf(s: string, n: nat, c: char)
    requires c !in s
    ensures TrimEnd(s + seq(n, _ => c), c) == s
  {
    var t := s + seq(n, _ => c);
    if n == 0 {
      assert t == s;
      assert s != "" ==> s[|s| - 1] in s;
    } else {
      assert t[..|t| - 1] == s + seq(n - 1, _ => c);
      TrimEndOf(s, n - 1, c);
    }
  }

  /** Trimming the padding gives the raw form, and decoding the padded form gives the data. */
  lemma PaddedRoundTrip(data: seq<Byte>)
    ensures TrimEnd(Padded(data), '=') == Raw(data)
    ensures DecodePadded(Padded(data)) == Some(data)
    ensures '\n' !in Padded(data)
  {
    hide Raw, DecodeRaw;
    RawRoundTrip(data);
    var f := Filler(|Raw(data)|);
    assert f == seq(|f|, _ => '=');
    TrimEndOf(Raw(data), |f|, '=');
    assert '\n' !in f;
  }

  lemma RawNonEmpty(data: seq<Byte>)
    ensures Raw(data) == "" <==> data == []
    ensures Padded(data) == "" <==> data == []
  {
    assert Regroup([], 6, 8, false) == Ok([]) && Regroup([], 8, 6, true) == Ok([]);
    hide Regroup;
    PaddedThenExact(data, 6);
  }
}
