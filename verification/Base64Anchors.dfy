/**
 Base64 group by group, as RFC 4648 section 4 states it: what the bit strings of module Base64 amount to.
 */
module Base64Anchors {
  import opened BitStrings
  import opened Regrouping
  import opened Base64

  /** The bits of two numbers side by side are the bits of the combined number. */
  lemma {:induction false} JoinBits(v: nat, m: nat, w: nat, n: nat)
    requires w < Pow2(n)
    ensures BitsOf(v, m) + BitsOf(w, n) == BitsOf(v * Pow2(n) + w, m + n)
  {
    if n == 0 {
      assert BitsOf(v, m) + [] == BitsOf(v, m);
    } else {
      JoinBits(v, m, w / 2, n - 1);
      JoinHalves(v, w, Pow2(n - 1));
      ConcatAssoc(BitsOf(v, m), BitsOf(w / 2, n - 1), [w % 2 == 1]);
    }
  }

  lemma JoinHalves(v: nat, w: nat, half: nat)
    ensures (v * (2 * half) + w) / 2 == v * half + w / 2
    ensures (v * (2 * half) + w) % 2 == w % 2
  {
    assert v * (2 * half) == 2 * (v * half);
  }

  lemma SmallPowers()
    ensures Pow2(2) == 4 && Pow2(4) == 16 && Pow2(6) == 64
  {
    assert Pow2(1) == 2;
    assert Pow2(3) == 8;
    assert Pow2(5) == 32;
  }

  lemma SplitByte(v: nat, w: nat)
    ensures w < 4 ==> BitsOf(4 * v + w, 8) == BitsOf(v, 6) + BitsOf(w, 2)
    ensures w < 16 ==> BitsOf(16 * v + w, 8) == BitsOf(v, 4) + BitsOf(w, 4)
    ensures w < 64 ==> BitsOf(64 * v + w, 8) == BitsOf(v, 2) + BitsOf(w, 6)
  {
    SmallPowers();
    hide BitsOf, Pow2;
    if w < 4 { JoinBits(v, 6, w, 2); }
    if w < 16 { JoinBits(v, 4, w, 4); }
    if w < 64 { JoinBits(v, 2, w, 6); }
  }

  lemma JoinSextet(v: nat, w: nat)
    ensures w < 16 ==> BitsOf(16 * v + w, 6) == BitsOf(v, 2) + BitsOf(w, 4)
    ensures w < 4 ==> BitsOf(4 * v + w, 6) == BitsOf(v, 4) + BitsOf(w, 2)
  {
    SmallPowers();
    hide BitsOf, Pow2;
    if w < 16 { JoinBits(v, 2, w, 4); }
    if w < 4 { JoinBits(v, 4, w, 2); }
  }

  /** The bits of three bytes cut at other places. */
  lemma Recut(p: nat, q: nat, r: nat, s: nat, t: nat, u: nat)
    requires q < 4 && r < 16 && s < 16 && t < 4 && u < 64
    ensures BitsOf(4 * p + q, 8) + BitsOf(16 * r + s, 8) + BitsOf(64 * t + u, 8)
         == BitsOf(p, 6) + BitsOf(16 * q + r, 6) + BitsOf(4 * s + t, 6) + BitsOf(u, 6)
  {
    hide BitsOf;
    SplitByte(p, q);
    SplitByte(r, s);
    SplitByte(t, u);
    JoinSextet(q, r);
    JoinSextet(s, t);
  }

  /** Three bytes have the bits of four sextets. */
  lemma ThreeAsFour(a: Byte, b: Byte, c: Byte)
    ensures BitsOf(a, 8) + BitsOf(b, 8) + BitsOf(c, 8)
         == BitsOf(a / 4, 6) + BitsOf(16 * (a % 4) + b / 16, 6) + BitsOf(4 * (b % 16) + c / 64, 6) + BitsOf(c % 64, 6)
  {
    hide BitsOf;
    Recut(a / 4, a % 4, b / 16, b % 16, c / 64, c % 64);
  }

  lemma UnpackThree(a: Byte, b: Byte, c: Byte, rest: seq<Byte>)
    ensures Unpack([a, b, c] + rest, 8) == BitsOf(a, 8) + BitsOf(b, 8) + BitsOf(c, 8) + Unpack(rest, 8)
  {
    hide BitsOf, Unpack;
    UnpackCons(a, [b, c] + rest, 8);
    UnpackCons(b, [c] + rest, 8);
    UnpackCons(c, rest, 8);
    assert [a] + ([b, c] + rest) == [a, b, c] + rest && [b] + ([c] + rest) == [b, c] + rest;
  }

  lemma PackSextet(v: nat, others: seq<bool>)
    requires v < 64
    ensures Pack(BitsOf(v, 6) + others, 6) == [v] + Pack(others, 6)
    ensures Rest(BitsOf(v, 6) + others, 6) == Rest(others, 6)
  {
    SmallPowers();
    ValueOfBits(v, 6);
    hide BitsOf, ValueOf, Pack, Rest;
    PackStep(BitsOf(v, 6), others, 6);
  }

  lemma PackFour(v: nat, w: nat, x: nat, y: nat, others: seq<bool>)
    requires v < 64 && w < 64 && x < 64 && y < 64
    ensures Pack(BitsOf(v, 6) + BitsOf(w, 6) + BitsOf(x, 6) + BitsOf(y, 6) + others, 6)
         == [v, w, x, y] + Pack(others, 6)
    ensures Rest(BitsOf(v, 6) + BitsOf(w, 6) + BitsOf(x, 6) + BitsOf(y, 6) + others, 6) == Rest(others, 6)
  {
    hide BitsOf, Pack, Rest;
    PackSextet(y, others);
    PackSextet(x, BitsOf(y, 6) + others);
    PackSextet(w, BitsOf(x, 6) + (BitsOf(y, 6) + others));
    PackSextet(v, BitsOf(w, 6) + (BitsOf(x, 6) + (BitsOf(y, 6) + others)));
    assert BitsOf(v, 6) + BitsOf(w, 6) + BitsOf(x, 6) + BitsOf(y, 6) + others
        == BitsOf(v, 6) + (BitsOf(w, 6) + (BitsOf(x, 6) + (BitsOf(y, 6) + others)));
  }

  lemma AllBytes(data: seq<Byte>)
    ensures Fits(data, 8)
  {
    Pow2Of8();
  }

  lemma SixesAre(data: seq<Byte>)
    ensures Sixes(data) == Pack(Unpack(data, 8) + Padding(Unpack(data, 8), 6), 6)
  {
    AllBytes(data);
  }

  /** The first four sextets of three or more bytes. */
  lemma SixesThree(a: Byte, b: Byte, c: Byte, rest: seq<Byte>)
    ensures Sixes([a, b, c] + rest)
         == [a / 4, 16 * (a % 4) + b / 16, 4 * (b % 16) + c / 64, c % 64] + Sixes(rest)
  {
    hide BitsOf, Pack, Rest, Unpack, Sixes;
    var u := Unpack(rest, 8);
    SixesAre(rest);
    SixesAre([a, b, c] + rest);
    UnpackThree(a, b, c, rest);
    ThreeAsFour(a, b, c);
    var first := BitsOf(a, 8) + BitsOf(b, 8) + BitsOf(c, 8);
    PackFour(a / 4, 16 * (a % 4) + b / 16, 4 * (b % 16) + c / 64, c % 64, u);
    PackFour(a / 4, 16 * (a % 4) + b / 16, 4 * (b % 16) + c / 64, c % 64, u + Padding(u, 6));
    ConcatAssoc(first, u, Padding(u, 6));
  }

  /** The four characters of RFC 4648 for three bytes. */
  function FourChars(a: Byte, b: Byte, c: Byte): (s: string)
    ensures |s| == 4
  {
    [AlphabetChar(a / 4), AlphabetChar(16 * (a % 4) + b / 16), AlphabetChar(4 * (b % 16) + c / 64),
     AlphabetChar(c % 64)]
  }

  lemma TextAppend(vs: seq<Byte>, ws: seq<Byte>)
    requires Sextets(vs) && Sextets(ws)
    ensures Text(vs + ws) == Text(vs) + Text(ws)
  {}

  /** Three bytes at the front are four characters at the front. */
  lemma ThreeBytes(a: Byte, b: Byte, c: Byte, rest: seq<Byte>)
    ensures Raw([a, b, c] + rest) == FourChars(a, b, c) + Raw(rest)
    ensures Padded([a, b, c] + rest) == FourChars(a, b, c) + Padded(rest)
  {
    SixesThree(a, b, c, rest);
    hide Sixes, AlphabetChar;
    var four := [a / 4, 16 * (a % 4) + b / 16, 4 * (b % 16) + c / 64, c % 64];
    TextAppend(four, Sixes(rest));
    assert Text(four) == FourChars(a, b, c);
    hide FourChars, Text;
    FillerOf(FourChars(a, b, c), Raw(rest));
  }

  lemma FillerOf(four: string, rest: string)
    requires |four| == 4
    ensures (four + rest) + Filler(|four + rest|) == four + (rest + Filler(|rest|))
  {}

  // The last one or two bytes.

  lemma {:induction false} BitsOfZero(n: nat)
    ensures BitsOf(0, n) == Zeros(n)
  {
    if n > 0 { BitsOfZero(n - 1); }
  }

  lemma ShortRest(b: seq<bool>)
    requires |b| < 6
    ensures Rest(b, 6) == b && Pack(b, 6) == []
  {}

  lemma UnpackLast(a: Byte, b: Byte)
    ensures Unpack([a], 8) == BitsOf(a, 8) && Unpack([a, b], 8) == BitsOf(a, 8) + BitsOf(b, 8)
  {
    UnpackThree(a, b, 0, []);
    hide BitsOf, Unpack;
    UnpackCons(a, [b], 8);
    UnpackCons(b, [], 8);
    UnpackCons(a, [], 8);
    NothingToUnpack();
    assert [a] + [] == [a] && [b] + [] == [b] && [a] + [b] == [a, b];
  }

  lemma NothingToUnpack()
    ensures Unpack([], 8) == []
  {}

  lemma PaddingAfter(v: nat, r: seq<bool>)
    requires v < 64 && 0 < |r| < 6
    ensures Padding(BitsOf(v, 6) + r, 6) == Zeros(6 - |r|)
  {
    hide BitsOf, Pack, Rest;
    PackSextet(v, r);
    ShortRest(r);
  }

  lemma PackLast(v: nat)
    requires v < 64
    ensures Pack(BitsOf(v, 6), 6) == [v]
  {
    hide BitsOf, Pack, Rest;
    PackSextet(v, []);
    ShortRest([]);
    assert BitsOf(v, 6) + [] == BitsOf(v, 6);
  }

  lemma SixesOne(a: Byte)
    ensures Sixes([a]) == [a / 4, 16 * (a % 4)]
  {
    hide BitsOf, Pack, Rest, Unpack, Sixes, Padding, Zeros;
    SixesAre([a]);
    UnpackLast(a, 0);
    SplitByte(a / 4, a % 4);
    PaddingAfter(a / 4, BitsOf(a % 4, 2));
    BitsOfZero(4);
    JoinSextet(a % 4, 0);
    ConcatAssoc(BitsOf(a / 4, 6), BitsOf(a % 4, 2), BitsOf(0, 4));
    PackSextet(a / 4, BitsOf(16 * (a % 4), 6));
    PackLast(16 * (a % 4));
  }

  lemma SixesTwo(a: Byte, b: Byte)
    ensures Sixes([a, b]) == [a / 4, 16 * (a % 4) + b / 16, 4 * (b % 16)]
  {
    hide BitsOf, Pack, Rest, Unpack, Sixes, Padding, Zeros;
    var p, q, r, s := a / 4, a % 4, b / 16, b % 16;
    SixesAre([a, b]);
    UnpackLast(a, b);
    TwoBits(p, q, r, s);
    PackSextet(p, BitsOf(16 * q + r, 6) + BitsOf(s, 4));
    PaddingAfter(16 * q + r, BitsOf(s, 4));
    PackSextet(p, BitsOf(16 * q + r, 6) + BitsOf(4 * s, 6));
    PackSextet(16 * q + r, BitsOf(4 * s, 6));
    PackLast(4 * s);
    TwoPadding(p, q, r, s);
  }

  lemma TwoBits(p: nat, q: nat, r: nat, s: nat)
    requires q < 4 && r < 16 && s < 16
    ensures BitsOf(4 * p + q, 8) + BitsOf(16 * r + s, 8) == BitsOf(p, 6) + (BitsOf(16 * q + r, 6) + BitsOf(s, 4))
  {
    hide BitsOf;
    SplitByte(p, q);
    SplitByte(r, s);
    JoinSextet(q, r);
  }

  lemma TwoPadding(p: nat, q: nat, r: nat, s: nat)
    requires p < 64 && q < 4 && r < 16 && s < 16
    ensures var u := BitsOf(p, 6) + (BitsOf(16 * q + r, 6) + BitsOf(s, 4));
            u + Padding(u, 6) == BitsOf(p, 6) + (BitsOf(16 * q + r, 6) + BitsOf(4 * s, 6))
  {
    hide BitsOf, Rest, Zeros;
    var v := BitsOf(16 * q + r, 6) + BitsOf(s, 4);
    PackSextet(p, v);
    PackSextet(16 * q + r, BitsOf(s, 4));
    ShortRest(BitsOf(s, 4));
    BitsOfZero(2);
    JoinSextet(s, 0);
    assert Padding(BitsOf(p, 6) + v, 6) == BitsOf(0, 2);
    hide Padding;
    ConcatAssoc(BitsOf(p, 6), v, BitsOf(0, 2));
    ConcatAssoc(BitsOf(16 * q + r, 6), BitsOf(s, 4), BitsOf(0, 2));
  }

  lemma PaddedOf(data: seq<Byte>)
    ensures Padded(data) == Text(Sixes(data)) + Filler(|Sixes(data)|)
    ensures |Raw(data)| == |Sixes(data)|
  {
    hide Sixes, AlphabetChar;
  }

  lemma FillerIs()
    ensures Filler(2) == "==" && Filler(3) == "="
  {}

  /** The end of the data: two characters for one byte, three for two, and '=' up to four. */
  lemma LastBytes(a: Byte, b: Byte)
    ensures Padded([]) == ""
    ensures Padded([a]) == [AlphabetChar(a / 4), AlphabetChar(16 * (a % 4)), '=', '=']
    ensures Padded([a, b])
         == [AlphabetChar(a / 4), AlphabetChar(16 * (a % 4) + b / 16), AlphabetChar(4 * (b % 16)), '=']
  {
    RawNonEmpty([]);
    PaddedOf([a]);
    PaddedOf([a, b]);
    SixesOne(a);
    SixesTwo(a, b);
    FillerIs();
    hide Sixes, AlphabetChar, Padded, Raw, Filler;
    TextTwo(a / 4, 16 * (a % 4));
    TextThree(a / 4, 16 * (a % 4) + b / 16, 4 * (b % 16));
  }

  lemma TextTwo(v: Byte, w: Byte)
    requires v < 64 && w < 64
    ensures Text([v, w]) + "==" == [AlphabetChar(v), AlphabetChar(w), '=', '=']
  {
    hide AlphabetChar;
  }

  lemma TextThree(v: Byte, w: Byte, x: Byte)
    requires v < 64 && w < 64 && x < 64
    ensures Text([v, w, x]) + "=" == [AlphabetChar(v), AlphabetChar(w), AlphabetChar(x), '=']
  {
    hide AlphabetChar;
  }

  /** The alphabet of RFC 4648, Table 1. */
  lemma AlphabetIs(v: Byte)
    requires v < 64
    ensures v < 26 ==> AlphabetChar(v) == "ABCDEFGHIJKLMNOPQRSTUVWXYZ"[v]
    ensures 26 <= v < 52 ==> AlphabetChar(v) == "abcdefghijklmnopqrstuvwxyz"[v - 26]
    ensures 52 <= v < 62 ==> AlphabetChar(v) == "0123456789"[v - 52]
    ensures AlphabetChar(62) == '+' && AlphabetChar(63) == '/'
  {}

  /** Four characters for every three bytes or part of them, so a padded text fills whole groups. */
  lemma {:induction false} PaddedLength(data: seq<Byte>)
    ensures |Padded(data)| == (|data| + 2) / 3 * 4
    ensures |Raw(data)| == (4 * |data| + 2) / 3
  {
    hide Raw, Padded, FourChars;
    if |data| >= 3 {
      assert data == [data[0], data[1], data[2]] + data[3..];
      PaddedLength(data[3..]);
      ThreeBytes(data[0], data[1], data[2], data[3..]);
    } else {
      ShortLength(data);
    }
  }

  lemma ShortLength(data: seq<Byte>)
    requires |data| < 3
    ensures |Padded(data)| == (|data| + 2) / 3 * 4
    ensures |Raw(data)| == (4 * |data| + 2) / 3
  {
    hide Raw, Padded, Sixes, AlphabetChar;
    PaddedOf(data);
    RawNonEmpty(data);
    FillerIs();
    if |data| == 2 {
      assert data == [data[0], data[1]];
      SixesTwo(data[0], data[1]);
    } else if |data| == 1 {
      assert data == [data[0]];
      SixesOne(data[0]);
    }
  }

  lemma SomeChars()
    ensures AlphabetChar(25) == 'Z' && AlphabetChar(32) == 'g' && AlphabetChar(38) == 'm'
    ensures AlphabetChar(60) == '8' && AlphabetChar(61) == '9' && AlphabetChar(47) == 'v'
  {}

  lemma FooChars()
    ensures FourChars(102, 111, 111) == "Zm9v"
  {
    SomeChars();
    hide AlphabetChar;
  }

  /** Some of the test vectors of RFC 4648, section 10. */
  lemma Vectors()
    ensures Padded([102]) == "Zg==" && Padded([102, 111]) == "Zm8="
    ensures Padded([102, 111, 111]) == "Zm9v"
  {
    SomeChars();
    hide Padded, Raw, AlphabetChar, FourChars;
    LastBytes(102, 111);
    FooChars();
    var foo: seq<Byte> := [102, 111, 111];
    assert foo + [] == foo;
    ThreeBytes(102, 111, 111, []);
  }
}
