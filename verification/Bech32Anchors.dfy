/**
 Where the encoder and the decoder of csharp/SopsEncrypt.cs stand, in terms outside both: a string of BIP 173,
 the charset, and which strings are refused with which error.
 */
module Bech32Anchors {
  import opened Wrappers
  import opened BitStrings
  import opened Regrouping
  import opened Checksum
  import opened BurstDetection
  import opened PairDetection
  import opened Bech32

  lemma RunTo(c: bv32, vs: seq<Byte>, x: bv32, w: bv32)
    requires vs != [] && AsWord(vs[0]) == x && Xor(FlatShift(c), x) == w
    ensures Run(c, vs) == Run(w, vs[1..])
  {
    hide FlatShift, Shift, AsWord, Xor;
    ShiftIsFlat(c);
  }

  /** The expansion of "a", and no data. */
  const PREFIX_A: seq<Byte> := [3, 0, 1]

  lemma ChecksumOfA()
    ensures ChecksumOf(PREFIX_A) == [10, 28, 25, 31, 20, 31]
  {
    var vs := PREFIX_A + SIX_ZEROS;
    SmallWords();
    assert vs[1..][1..] == vs[2..] && vs[2..][1..] == vs[3..] && vs[3..][1..] == vs[4..] && vs[4..][1..] == vs[5..];
    assert vs[5..][1..] == vs[6..] && vs[6..][1..] == vs[7..] && vs[7..][1..] == vs[8..] && vs[8..][1..] == [];
    assert Run(1, vs) == 0x15ccfe9e by {
      hide AsWord, Run;
      RunTo(1, vs, 3, 0x23);
      RunTo(0x23, vs[1..], 0, 0x460);
      RunTo(0x460, vs[2..], 1, 0x8c01);
      RunTo(0x8c01, vs[3..], 0, 0x118020);
      RunTo(0x118020, vs[4..], 0, 0x2300400);
      RunTo(0x2300400, vs[5..], 0, 0x3d6ad7b2);
      RunTo(0x3d6ad7b2, vs[6..], 0, 0x2fd30b9);
      RunTo(0x2fd30b9, vs[7..], 0, 0x24cc4092);
      RunTo(0x24cc4092, vs[8..], 0, 0x15ccfe9e);
      RunEnds(0x15ccfe9e);
    }
    hide Run;
    DigitsOfA();
  }

  lemma SmallWords()
    ensures AsWord(0) == 0 && AsWord(1) == 1 && AsWord(3) == 3
  {
    SymbolWord(0);
    SymbolWord(1);
    SymbolWord(3);
  }

  lemma RunEnds(c: bv32)
    ensures Run(c, []) == c
  {}

  lemma DigitsOfA()
    ensures Digits(Xor(0x15ccfe9e, 1)) == [10, 28, 25, 31, 20, 31]
  {
    var mod: bv32 := 0x15ccfe9f;
    assert Xor(0x15ccfe9e, 1) == mod;
  }

  lemma PartsOfA(u: Casing)
    requires Lawful(u)
    ensures Expand(u, "a") == PREFIX_A && Lower(u, "a") == "a"
  {}

  lemma NoSymbols()
    ensures DataSymbols([]) == [] && Chars([]) == ""
  {}

  lemma CharsOfA()
    ensures Chars([10, 28, 25, 31, 20, 31]) == "2uel5l"
  {}

  /** BIP 173, test vectors: "a" and no bytes is "a12uel5l". */
  lemma KnownString(u: Casing)
    requires Lawful(u)
    ensures Encoded(u, "a", []) == "a12uel5l"
    ensures Decoding(u, "a12uel5l") == Ok(Decoded("a", []))
  {
    hide ChecksumOf, Expand, DataSymbols, Chars, Decoding, Lower, Encoded, PREFIX_A;
    PartsOfA(u);
    NoSymbols();
    ChecksumOfA();
    CharsOfA();
    assert PREFIX_A + [] == PREFIX_A;
    EncodedIs(u, "a", []);
    assert "a" + "1" + "" + "2uel5l" == "a12uel5l";
    RoundTrip(u, "a", []);
  }

  /** The charset of BIP 173, symbol by symbol. */
  lemma CharsetIs()
    ensures Chars(seq(32, i requires 0 <= i < 32 => i)) == "qpzry9x8gf2tvdw0s3jn54khce6mua7l"
  {}

  // Which strings are refused, with which error.

  /** Mixed case comes first: some character changes when lower-cased and some when upper-cased. */
  lemma MixedExactly(u: Casing, s: string)
    ensures Decoding(u, s) == Err(MixedCase)
       <==> (exists i :: 0 <= i < |s| && u.lower(s[i]) != s[i]) && (exists i :: 0 <= i < |s| && u.upper(s[i]) != s[i])
  {
    hide Run, Regroup, IndexOf, CHARSET, Expand;
    if forall i :: 0 <= i < |s| ==> u.lower(s[i]) == s[i] { assert Lower(u, s) == s; }
    if forall i :: 0 <= i < |s| ==> u.upper(s[i]) == s[i] { assert Upper(u, s) == s; }
  }

  /** Then the separator: the last '1' needs something before it and six characters after it. */
  lemma SeparatorExactly(u: Casing, s: string)
    ensures Decoding(u, s) == Err(BadSeparator)
       <==> !Mixed(u, s) && !exists i :: 1 <= i < |s| - 6 && s[i] == '1' && forall j :: i < j < |s| ==> s[j] != '1'
  {
    hide Run, Regroup, IndexOf, CHARSET, Expand, Lower, Upper;
    var pos := LastSeparator(s);
    if pos >= 0 {
      forall i | 0 <= i < |s| && s[i] == '1' && forall j :: i < j < |s| ==> s[j] != '1' ensures i == pos {}
    }
  }

  /** Then the characters after it: each, lower-cased, is one of the charset. */
  lemma CharacterExactly(u: Casing, s: string)
    ensures Decoding(u, s) == Err(InvalidCharacter)
       <==> !Mixed(u, s) && Decoding(u, s) != Err(BadSeparator)
            && exists i :: LastSeparator(s) < i < |s| && u.lower(s[i]) !in "qpzry9x8gf2tvdw0s3jn54khce6mua7l"
  {
    hide Run, Regroup, IndexOf, Expand, Lower, Upper, LastSeparator;
    var pos := LastSeparator(s);
    if 1 <= pos && pos + 7 <= |s| {
      var part := s[pos + 1..];
      forall i | 0 <= i < |part| ensures part[i] == s[pos + 1 + i] {}
      if !InCharset(u, part) {
        var i :| 0 <= i < |part| && u.lower(part[i]) !in CHARSET;
        assert u.lower(s[pos + 1 + i]) !in CHARSET;
      }
    }
  }

  // Upper case.

  lemma {:induction false} UpperLower(u: Casing, s: string)
    requires Lawful(u) && (forall i :: 0 <= i < |s| ==> s[i] as int < 128) && Lower(u, s) == s
    ensures Lower(u, Upper(u, s)) == s && Upper(u, Upper(u, s)) == Upper(u, s)
  {
    forall i | 0 <= i < |s|
      ensures u.lower(u.upper(s[i])) == s[i] && u.upper(u.upper(s[i])) == u.upper(s[i])
    {
      assert s[i] == Lower(u, s)[i] == u.lower(s[i]);
    }
  }

  /** An accepted lower-case ASCII string is accepted in upper case as well, with its prefix in upper case. */
  lemma UpperCaseAccepted(u: Casing, s: string)
    requires Lawful(u) && (forall i :: 0 <= i < |s| ==> s[i] as int < 128) && Lower(u, s) == s
    requires Decoding(u, s).Ok?
    ensures var d := Decoding(u, s).value;
            |d.hrp| <= |s| && Decoding(u, Upper(u, s)) == Ok(Decoded(Upper(u, s)[..|d.hrp|], d.data))
  {
    hide Decoding, Lower, Upper;
    UpperLower(u, s);
    NotMixedUpper(u, Upper(u, s));
    CaseDoesNotMatter(u, Upper(u, s));
  }

  lemma NotMixedUpper(u: Casing, s: string)
    requires Upper(u, s) == s
    ensures !Mixed(u, s)
  {}
}
