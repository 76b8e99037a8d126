/**
 csharp/SopsEncrypt.cs, Bech32.ConvertBits: regrouping bytes of one width into bytes of another
 through a 32-bit register that silently discards its high bits.
 */
module Regrouping {
  import opened Wrappers
  import opened BitStrings

  datatype RegroupError = InvalidDataRange | IllegalPadding

  type RegroupResult = Result<seq<Byte>, RegroupError>

  // C#'s uint operators, on values below 2^32.

  type Word = v: int | 0 <= v < 0x1_0000_0000

  /** n single shifts, each discarding the bit that leaves the word. */
  function Shl32(a: Word, n: nat): Word {
    if n == 0 then a else 2 * Shl32(a, n - 1) % 0x1_0000_0000
  }

  function Or(a: nat, b: nat): nat {
    if a == 0 then b
    else if b == 0 then a
    else 2 * Or(a / 2, b / 2) + if a % 2 == 1 || b % 2 == 1 then 1 else 0
  }

  function And(a: nat, b: nat): nat {
    if a == 0 || b == 0 then 0
    else 2 * And(a / 2, b / 2) + if a % 2 == 1 && b % 2 == 1 then 1 else 0
  }

  lemma {:induction false} OrBits(a: nat, b: nat, n: nat)
    ensures a < Pow2(n) && b < Pow2(n) ==> Or(a, b) < Pow2(n)
    ensures forall i :: 0 <= i < n ==> BitsOf(Or(a, b), n)[i] == (BitsOf(a, n)[i] || BitsOf(b, n)[i])
  {
    if n > 0 {
      OrBits(a / 2, b / 2, n - 1);
      if a == 0 || b == 0 {
        ZeroBits(n);
      } else {
        assert Or(a, b) / 2 == Or(a / 2, b / 2);
      }
    }
  }

  /** Inside the word, shifting left drops the top bits and brings in zeros. */
  lemma {:induction false} Shl32Bits(a: Word, f: nat, n: nat)
    requires f <= n <= 32
    ensures BitsOf(Shl32(a, f), n) == BitsOf(a, n - f) + Zeros(f)
  {
    if f == 0 {
      assert BitsOf(a, n) + Zeros(0) == BitsOf(a, n);
    } else {
      var y := Shl32(a, f - 1);
      Shl32Bits(a, f - 1, n - 1);
      DoubledBits(y, n);
      assert Zeros(f) == Zeros(f - 1) + [false];
      ConcatAssoc(BitsOf(a, n - f), Zeros(f - 1), [false]);
    }
  }

  lemma DoubledBits(y: Word, n: nat)
    requires 1 <= n <= 32
    ensures BitsOf(2 * y % 0x1_0000_0000, n) == BitsOf(y, n - 1) + [false]
  {
    var q, r := y / 0x8000_0000, y % 0x8000_0000;
    assert y == q * 0x8000_0000 + r && 2 * y % 0x1_0000_0000 == 2 * r;
    Pow2Of32();
    BitsOfHigh(q, r, 31, n - 1);
  }

  /** Masking with 2^n - 1 keeps exactly the low n bits. */
  lemma {:induction false} MaskKeepsLowBits(v: nat, n: nat)
    ensures And(v, Pow2(n) - 1) < Pow2(n)
    ensures BitsOf(And(v, Pow2(n) - 1), n) == BitsOf(v, n)
  {
    if n > 0 {
      var mask := Pow2(n) - 1;
      assert mask / 2 == Pow2(n - 1) - 1 && mask % 2 == 1;
      MaskKeepsLowBits(v / 2, n - 1);
      if v == 0 {
        assert v / 2 == 0;
      } else {
        var x := And(v, mask);
        assert x == 2 * And(v / 2, mask / 2) + v % 2;
      }
    }
  }

  // What regrouping means, on the unbounded bit string.

  /** The zero bits that complete the last group. */
  function Padding(b: seq<bool>, w: nat): (p: seq<bool>)
    requires 1 <= w <= 8
    ensures |p| < w && AllFalse(p)
  {
    if Rest(b, w) == [] then [] else Zeros(w - |Rest(b, w)|)
  }

  /**
   Regrouping from frombits to tobits: with pad, a short last group is completed with zeros;
   without, the leftover must be shorter than an input group and all zero, and is dropped.
   */
  function Regroup(data: seq<Byte>, frombits: nat, tobits: nat, pad: bool): RegroupResult
    requires 1 <= frombits <= 8 && 1 <= tobits <= 8
  {
    var b := Unpack(data, frombits);
    var rest := Rest(b, tobits);
    if !Fits(data, frombits) then Err(InvalidDataRange)
    else if pad then Ok(Pack(b + Padding(b, tobits), tobits))
    else if |rest| >= frombits || !AllFalse(rest) then Err(IllegalPadding)
    else Ok(Pack(b, tobits))
  }

  lemma Pow2Of32()
    ensures Pow2(31) == 0x8000_0000 && Pow2(32) == 0x1_0000_0000
  {
    Pow2Of8();
    assert Pow2(10) == 0x400;
    assert Pow2(12) == 0x1000;
    assert Pow2(14) == 0x4000;
    assert Pow2(16) == 0x1_0000;
    assert Pow2(18) == 0x4_0000;
    assert Pow2(20) == 0x10_0000;
    assert Pow2(22) == 0x40_0000;
    assert Pow2(24) == 0x100_0000;
    assert Pow2(26) == 0x400_0000;
    assert Pow2(28) == 0x1000_0000;
    assert Pow2(30) == 0x4000_0000;
  }

  /**
   The low bits of the register after one more input value, even though the shift discards
   whatever leaves the 32-bit word.
   */
  lemma RegisterStep(acc: Word, bits: nat, v: Byte, f: nat)
    requires v < Pow2(f) && bits + f <= 32
    ensures Or(Shl32(acc, f), v) < 0x1_0000_0000
    ensures BitsOf(Or(Shl32(acc, f), v), bits + f) == BitsOf(acc, bits) + BitsOf(v, f)
  {
    var n := bits + f;
    Pow2Of32();
    OrBits(Shl32(acc, f), v, 32);
    OrBits(Shl32(acc, f), v, n);
    Shl32Bits(acc, f, n);
    ShortValueBits(v, bits, f);
  }

  /** The group that one turn of the inner loop takes from the top of the register. */
  function TopGroup(acc: Word, bits: nat, t: nat): (group: Byte)
    requires t <= 8
    ensures group < Pow2(t)
    ensures BitsOf(group, t) == BitsOf(Shr(acc, bits), t)
  {
    var group := And(Shr(acc, bits), Pow2(t) - 1);
    MaskKeepsLowBits(Shr(acc, bits), t);
    Pow2Monotonic(t, 8);
    Pow2Of8();
    group
  }

  /** The loop invariant: the output and the low bits of the register hold every bit seen. */
  ghost predicate Holds(ret: seq<Byte>, acc: Word, bits: nat, t: nat, seen: seq<bool>) {
    Fits(ret, t) && Unpack(ret, t) + BitsOf(acc, bits) == seen
  }

  lemma NothingSeen(t: nat, f: nat)
    ensures Holds([], 0, 0, t, Unpack([], f))
  {}

  lemma EmitGroup(ret: seq<Byte>, acc: Word, bits: nat, t: nat, seen: seq<bool>)
    requires t <= 8 && Holds(ret, acc, t + bits, t, seen)
    ensures Holds(ret + [TopGroup(acc, bits, t)], acc, bits, t, seen)
  {
    var group := TopGroup(acc, bits, t);
    BitsOfSplit(acc, t, bits);
    UnpackSnoc(ret, group, t);
    ConcatAssoc(Unpack(ret, t), BitsOf(group, t), BitsOf(acc, bits));
  }

  lemma TakeValue(ret: seq<Byte>, acc: Word, bits: nat, t: nat, v: Byte, f: nat, seen: seq<bool>)
    requires v < Pow2(f) && bits + f <= 32 && Holds(ret, acc, bits, t, seen)
    ensures Or(Shl32(acc, f), v) < 0x1_0000_0000
    ensures Holds(ret, Or(Shl32(acc, f), v), bits + f, t, seen + BitsOf(v, f))
  {
    RegisterStep(acc, bits, v, f);
    ConcatAssoc(Unpack(ret, t), BitsOf(acc, bits), BitsOf(v, f));
  }

  /** The partial group made of the bits left in the register and zeros below them. */
  function LastGroup(acc: Word, bits: nat, t: nat): (last: Byte)
    requires bits <= t <= 8
    ensures last < Pow2(t)
    ensures BitsOf(last, t) == BitsOf(Shl32(acc, t - bits), t)
  {
    var last := And(Shl32(acc, t - bits), Pow2(t) - 1);
    MaskKeepsLowBits(Shl32(acc, t - bits), t);
    Pow2Monotonic(t, 8);
    Pow2Of8();
    last
  }

  lemma LastGroupBits(acc: Word, bits: nat, t: nat)
    requires bits <= t <= 8
    ensures BitsOf(LastGroup(acc, bits, t), t) == BitsOf(acc, bits) + Zeros(t - bits)
    ensures LastGroup(acc, bits, t) == 0 <==> AllFalse(BitsOf(acc, bits))
  {
    var last := LastGroup(acc, bits, t);
    RegisterStep(acc, bits, 0, t - bits);
    assert Or(Shl32(acc, t - bits), 0) == Shl32(acc, t - bits);
    BitsOfZero(0, t - bits);
    assert BitsOf(0, t - bits) == Zeros(t - bits);
    BitsOfZero(last, t);
    ZeroTail(BitsOf(acc, bits), Zeros(t - bits));
  }

  lemma ZeroTail(b: seq<bool>, z: seq<bool>)
    requires AllFalse(z)
    ensures AllFalse(b + z) <==> AllFalse(b)
  {
    if AllFalse(b + z) {
      forall i | 0 <= i < |b| ensures !b[i] { assert (b + z)[i] == b[i]; }
    }
  }

  /** The inner loop of ConvertBits. */
  method DrainGroups(ret0: seq<Byte>, acc: Word, bits0: nat, tobits: nat, ghost seen: seq<bool>)
    returns (ret: seq<Byte>, bits: nat)
    requires 1 <= tobits <= 8 && Holds(ret0, acc, bits0, tobits, seen)
    ensures bits < tobits && Holds(ret, acc, bits, tobits, seen)
  {
    ret, bits := ret0, bits0;
    while bits >= tobits
      invariant Holds(ret, acc, bits, tobits, seen)
    {
      bits := bits - tobits;
      EmitGroup(ret, acc, bits, tobits, seen);
      ret := ret + [TopGroup(acc, bits, tobits)];
    }
  }

  method ConvertBits(data: seq<Byte>, frombits: nat, tobits: nat, pad: bool) returns (r: RegroupResult)
    requires 1 <= frombits <= 8 && 1 <= tobits <= 8
    ensures r == Regroup(data, frombits, tobits, pad)
  {
    hide BitsOf, Unpack, Shr, Or, Shl32, Pack, Rest, Pow2;
    var ret: seq<Byte> := [];
    var acc: Word := 0;
    var bits := 0;
    NothingSeen(tobits, frombits);
    assert data[..0] == [];
    for i := 0 to |data|
      invariant 0 <= bits < tobits
      invariant Fits(data[..i], frombits)
      invariant Holds(ret, acc, bits, tobits, Unpack(data[..i], frombits))
    {
      var value := data[i];
      ShrZero(value, frombits);
      if Shr(value, frombits) != 0 {
        return Err(InvalidDataRange);
      }
      ghost var seen := Unpack(data[..i], frombits);
      TakeValue(ret, acc, bits, tobits, value, frombits, seen);
      acc := Or(Shl32(acc, frombits), value);
      bits := bits + frombits;
      ret, bits := DrainGroups(ret, acc, bits, tobits, seen + BitsOf(value, frombits));
      assert data[..i + 1] == data[..i] + [value];
      UnpackSnoc(data[..i], value, frombits);
    }
    assert data[..|data|] == data;
    FinalGroup(ret, acc, bits, tobits, Unpack(data, frombits));
    if pad {
      if bits > 0 {
        ret := ret + [LastGroup(acc, bits, tobits)];
      }
    } else if bits >= frombits || LastGroup(acc, bits, tobits) != 0 {
      return Err(IllegalPadding);
    }
    return Ok(ret);
  }

  /** What the code after the loop finds in the register, in terms of the whole bit string. */
  lemma FinalGroup(ret: seq<Byte>, acc: Word, bits: nat, t: nat, b: seq<bool>)
    requires bits < t <= 8 && Holds(ret, acc, bits, t, b)
    ensures Rest(b, t) == BitsOf(acc, bits) && Pack(b, t) == ret
    ensures LastGroup(acc, bits, t) == 0 <==> AllFalse(BitsOf(acc, bits))
    ensures Pack(b + Padding(b, t), t) == if bits > 0 then ret + [LastGroup(acc, bits, t)] else ret
  {
    PackUnpack(ret, t, BitsOf(acc, bits));
    LastGroupBits(acc, bits, t);
    if bits > 0 {
      PaddedGroups(ret, BitsOf(acc, bits), LastGroup(acc, bits, t), t);
    } else {
      assert b + Padding(b, t) == b;
    }
  }

  lemma PaddedGroups(ret: seq<Byte>, rest: seq<bool>, last: Byte, t: nat)
    requires 1 <= t <= 8 && Fits(ret, t) && |rest| < t && last < Pow2(t)
    requires BitsOf(last, t) == rest + Zeros(t - |rest|)
    ensures Pack(Unpack(ret, t) + rest + Zeros(t - |rest|), t) == ret + [last]
  {
    UnpackSnoc(ret, last, t);
    ConcatAssoc(Unpack(ret, t), rest, Zeros(t - |rest|));
    PackUnpackWhole(ret + [last], t);
  }

  // Regrouping to narrower groups with padding is undone by regrouping back without.

  lemma PaddedThenExact(d: seq<Byte>, t: nat)
    requires 1 <= t <= 8
    ensures Regroup(d, 8, t, true).Ok?
    ensures Regroup(Regroup(d, 8, t, true).value, t, 8, false) == Ok(d)
  {
    Pow2Of8();
    var b := Unpack(d, 8);
    var p := Padding(b, t);
    UnpackPack(b, t);
    var g := Pack(b + p, t);
    PadCompletes(b, t);
    UnpackPack(b + p, t);
    assert Unpack(g, t) == b + p;
    PackUnpack(d, 8, p);
  }

  /** Whatever the exact form accepts is what the padded form would have written. */
  lemma ExactThenPadded(g: seq<Byte>, t: nat)
    requires 1 <= t <= 8
    requires Regroup(g, t, 8, false).Ok?
    ensures Regroup(Regroup(g, t, 8, false).value, 8, t, true) == Ok(g)
  {
    Pow2Of8();
    var b := Unpack(g, t);
    var rest := Rest(b, 8);
    var d := Pack(b, 8);
    UnpackPack(b, 8);
    var b8 := Unpack(d, 8);
    assert b8 + rest == b;
    UnpackPack(b8, t);
    PackUnpackWhole(g, t);
    PadIsRest(g, b8, rest, t);
  }

  /** A zero tail shorter than a group that ends on a group boundary is exactly the padding. */
  lemma {:induction false} PadIsRest(g: seq<Byte>, b: seq<bool>, tail: seq<bool>, t: nat)
    requires 1 <= t <= 8 && Fits(g, t)
    requires Unpack(g, t) == b + tail && |tail| < t && AllFalse(tail)
    ensures tail == Padding(b, t)
  {
    if g == [] {
      assert b == [];
    } else {
      var first, others := BitsOf(g[0], t), Unpack(g[1..], t);
      assert b + tail == first + others;
      if |b| < t {
        assert |b + tail| < 2 * t;
        ShortUnpack(g[1..], t);
        assert others == [];
        assert tail == Zeros(t - |b|);
      } else {
        assert b[t..] + tail == others by {
          assert (b + tail)[t..] == b[t..] + tail && (first + others)[t..] == others;
        }
        PadIsRest(g[1..], b[t..], tail, t);
      }
    }
  }

  lemma ShortUnpack(g: seq<Byte>, t: nat)
    ensures |Unpack(g, t)| < t ==> g == []
  {}

  lemma {:induction false} RestIs(b: seq<bool>, w: nat)
    requires 1 <= w <= 8
    ensures Rest(b, w) == b[|b| - |b| % w..]
    decreases |b|
  {
    if |b| >= w {
      RestIs(b[w..], w);
      DropGroup(|b|, w);
    }
  }

  lemma DropGroup(n: nat, w: nat)
    requires 1 <= w <= 8 && n >= w
    ensures (n - w) % w == n % w
  {}

  /** The two errors: a value too wide for its group, and otherwise a leftover that is too long or not all zero. */
  lemma RefusedExactly(data: seq<Byte>, f: nat, t: nat, pad: bool)
    requires 1 <= f <= 8 && 1 <= t <= 8
    ensures Regroup(data, f, t, pad) == Err(InvalidDataRange) <==> exists i :: 0 <= i < |data| && data[i] >= Pow2(f)
    ensures var b := Unpack(data, f);
            var left := |b| % t;
            Regroup(data, f, t, pad) == Err(IllegalPadding)
            <==> !pad && (forall i :: 0 <= i < |data| ==> data[i] < Pow2(f))
                 && (left >= f || exists i :: |b| - left <= i < |b| && b[i])
  {
    hide Pow2, Unpack, Pack, Rest;
    var b := Unpack(data, f);
    RestIs(b, t);
    var rest := b[|b| - |b| % t..];
    assert forall i :: 0 <= i < |rest| ==> rest[i] == b[|b| - |b| % t + i];
    if i :| |b| - |b| % t <= i < |b| && b[i] {
      assert rest[i - (|b| - |b| % t)];
    }
  }

  /** After padding there is no leftover. */
  lemma PadCompletes(b: seq<bool>, w: nat)
    requires 1 <= w <= 8
    ensures Rest(b + Padding(b, w), w) == []
    ensures Unpack(Pack(b + Padding(b, w), w), w) == b + Padding(b, w)
  {
    UnpackPack(b, w);
    UnpackPack(b + Padding(b, w), w);
    if Rest(b, w) != [] {
      PadCompletesGroup(Pack(b, w), Rest(b, w), Padding(b, w), w);
      assert b + Padding(b, w) == Unpack(Pack(b, w), w) + (Rest(b, w) + Padding(b, w));
    } else {
      assert b + Padding(b, w) == b;
    }
  }

  lemma PadCompletesGroup(g: seq<Byte>, r: seq<bool>, p: seq<bool>, w: nat)
    requires 1 <= w <= 8 && Fits(g, w) && |r + p| == w
    ensures Rest(Unpack(g, w) + (r + p), w) == []
  {
    var v := ByteOf(r + p);
    BitsOfValue(r + p);
    UnpackSnoc(g, v, w);
    PackUnpackWhole(g + [v], w);
  }
}
