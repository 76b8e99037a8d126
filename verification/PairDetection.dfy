/**
 Two changed symbols, at any distance, under the checksum of Bech32: x has order 1023 modulo the generator
 of BIP 173, and no smaller power of it is a constant. The exponents that are constants form a group, so
 that only the maximal proper divisors of 1023 have to be computed.
 */
module PairDetection {
  import opened BitStrings
  import opened Checksum
  import opened BurstDetection

  function Shifted(c: bv32, n: nat): bv32
    decreases n
  {
    if n == 0 then c else Shift(Shifted(c, n - 1))
  }

  lemma NoShift()
    ensures Shifted(1, 0) == 1 && Symbol(1)
  {}

  predicate Symbol(c: bv32) {
    c < 32
  }

  lemma {:induction false} ShiftedAdd(c: bv32, m: nat, n: nat)
    ensures Shifted(c, m + n) == Shifted(Shifted(c, m), n)
  {
    hide Shift;
    if n > 0 { ShiftedAdd(c, m, n - 1); }
  }

  lemma {:induction false} ShiftedRegister(c: bv32, n: nat)
    requires Register(c)
    ensures Register(Shifted(c, n))
  {
    hide Shift, Unshift, Register;
    if n > 0 {
      ShiftedRegister(c, n - 1);
      ShiftBijective(Shifted(c, n - 1));
    }
  }

  lemma ShiftZero(c: bv32)
    requires Register(c)
    ensures Shift(c) == 0 <==> c == 0
  {
    hide Shift, Unshift;
    ShiftOfZero();
    if Shift(c) == 0 {
      ShiftBijective(c);
      ShiftBijective(0);
    }
  }

  lemma ShiftOfZero()
    ensures Shift(0) == 0
  {
    FeedbackOfZero();
    hide Feedback;
  }

  lemma {:induction false} ShiftedZero(c: bv32, n: nat)
    requires Register(c)
    ensures Shifted(c, n) == 0 <==> c == 0
  {
    hide Shift, Register;
    if n > 0 {
      ShiftedZero(c, n - 1);
      ShiftedRegister(c, n - 1);
      ShiftZero(Shifted(c, n - 1));
    }
  }

  // The powers of x whose exponents matter, by leaps of 31 shifts.

  /** The shift with nothing left to unfold, for computing with numbers. */
  function FlatShift(c: bv32): bv32 {
    Xor(Kept(c),
        Xor(Xor(Xor(Xor(if c & 0x200_0000 != 0 then 0x3b6a57b2 else 0, if c & 0x400_0000 != 0 then 0x26508e6d else 0),
                    if c & 0x800_0000 != 0 then 0x1ea119fa else 0),
                if c & 0x1000_0000 != 0 then 0x3d4233dd else 0),
            if c & 0x2000_0000 != 0 then 0x2a1462b3 else 0))
  }

  lemma TopBits(c: bv32)
    ensures BitSet(c >> 25, 0) <==> c & 0x200_0000 != 0
    ensures BitSet(c >> 25, 1) <==> c & 0x400_0000 != 0
    ensures BitSet(c >> 25, 2) <==> c & 0x800_0000 != 0
    ensures BitSet(c >> 25, 3) <==> c & 0x1000_0000 != 0
    ensures BitSet(c >> 25, 4) <==> c & 0x2000_0000 != 0
  {}

  lemma ShiftIsFlat(c: bv32)
    ensures Shift(c) == FlatShift(c)
  {
    TopBits(c);
    FeedbackUnfolded(c >> 25);
    hide Feedback, BitSet, Xor, Kept;
  }

  function Shift5(c: bv32): bv32 {
    FlatShift(FlatShift(FlatShift(FlatShift(FlatShift(c)))))
  }

  function Shift31(c: bv32): bv32 {
    FlatShift(Shift5(Shift5(Shift5(Shift5(Shift5(Shift5(c)))))))
  }

  lemma FiveShifts(n: nat)
    ensures Shifted(1, n + 5) == Shift5(Shifted(1, n))
  {
    hide Shift, FlatShift;
    ShiftIsFlat(Shifted(1, n));
    ShiftIsFlat(Shifted(1, n + 1));
    ShiftIsFlat(Shifted(1, n + 2));
    ShiftIsFlat(Shifted(1, n + 3));
    ShiftIsFlat(Shifted(1, n + 4));
  }

  lemma Leap(n: nat, v: bv32, w: bv32)
    requires Shifted(1, n) == v && Shift31(v) == w
    ensures Shifted(1, n + 31) == w
  {
    hide Shift, FlatShift, Shift5;
    FiveShifts(n);
    FiveShifts(n + 5);
    FiveShifts(n + 10);
    FiveShifts(n + 15);
    FiveShifts(n + 20);
    FiveShifts(n + 25);
    ShiftIsFlat(Shifted(1, n + 30));
  }

  lemma OneShift(n: nat, v: bv32, w: bv32)
    requires Shifted(1, n) == v && FlatShift(v) == w
    ensures Shifted(1, n + 1) == w
  {
    hide Shift, FlatShift;
    ShiftIsFlat(v);
  }

  lemma Power93()
    ensures Shifted(1, 93) == 0x2d3a1897
  {
    NoShift();
    hide Shifted;
    Leap(0, 1, 0x63b7a8b);
    Leap(31, 0x63b7a8b, 0x388e92bb);
    Leap(62, 0x388e92bb, 0x2d3a1897);
  }

  lemma Power217()
    ensures Shifted(1, 217) == 0x3c413d2
  {
    hide Shifted;
    Power93();
    Leap(93, 0x2d3a1897, 0x6af927);
    Leap(124, 0x6af927, 0x30871444);
    Leap(155, 0x30871444, 0x17cc87e3);
    Leap(186, 0x17cc87e3, 0x3c413d2);
  }

  lemma Power341()
    ensures Shifted(1, 341) == 0x3ca763cb
  {
    hide Shifted;
    Power217();
    Leap(217, 0x3c413d2, 0x23a0d91b);
    Leap(248, 0x23a0d91b, 0xaeb1f4d);
    Leap(279, 0xaeb1f4d, 0x31bab821);
    Leap(310, 0x31bab821, 0x3ca763cb);
  }

  lemma Power496()
    ensures Shifted(1, 496) == 0x25b5f720
  {
    hide Shifted;
    Power341();
    Leap(341, 0x3ca763cb, 0x28df0155);
    Leap(372, 0x28df0155, 0x18a052a2);
    Leap(403, 0x18a052a2, 0x36c43269);
    Leap(434, 0x36c43269, 0x737bb9d);
    Leap(465, 0x737bb9d, 0x25b5f720);
  }

  lemma Power651()
    ensures Shifted(1, 651) == 0x3d5819da
  {
    hide Shifted;
    Power496();
    Leap(496, 0x25b5f720, 0x987c321);
    Leap(527, 0x987c321, 0x3132c43a);
    Leap(558, 0x3132c43a, 0x2d79322a);
    Leap(589, 0x2d79322a, 0x73b1c17);
    Leap(620, 0x73b1c17, 0x3d5819da);
  }

  lemma Power806()
    ensures Shifted(1, 806) == 0x1ad77d33
  {
    hide Shifted;
    Power651();
    Leap(651, 0x3d5819da, 0x25eded09);
    Leap(682, 0x25eded09, 0x15635480);
    Leap(713, 0x15635480, 0x73005b4);
    Leap(744, 0x73005b4, 0xee6a299);
    Leap(775, 0xee6a299, 0x1ad77d33);
  }

  lemma Power930()
    ensures Shifted(1, 930) == 0x4dc17ab
  {
    hide Shifted;
    Power806();
    Leap(806, 0x1ad77d33, 0x1073f50f);
    Leap(837, 0x1073f50f, 0x3efe11b9);
    Leap(868, 0x3efe11b9, 0x3a9933d7);
    Leap(899, 0x3a9933d7, 0x4dc17ab);
  }

  /** The order of x divides 1023. */
  lemma Power1023()
    ensures Shifted(1, 1023) == 1
  {
    hide Shifted;
    Power930();
    Leap(930, 0x4dc17ab, 0x31b6e1de);
    Leap(961, 0x31b6e1de, 0x1a5bcb14);
    Leap(992, 0x1a5bcb14, 1);
  }

  lemma Power33()
    ensures Shifted(1, 33) == 0x12386a75
  {
    NoShift();
    hide Shifted, Shift;
    Leap(0, 1, 0x63b7a8b);
    OneShift(31, 0x63b7a8b, 0x1a5588bf);
    OneShift(32, 0x1a5588bf, 0x12386a75);
  }

  // Multiplication by a constant: every coefficient is multiplied by the element 2 of GF(32).

  function UpperBits(c: bv32): bv32 {
    (c & 0x1ef7_bdef) << 1
  }

  function Carries(c: bv32): bv32 {
    (c >> 4) & 0x210_8421
  }

  function UpThree(t: bv32): bv32 {
    t << 3
  }

  function Double(c: bv32): bv32 {
    Xor(UpperBits(c), Xor(Carries(c), UpThree(Carries(c))))
  }

  lemma SymbolRegister(c: bv32)
    requires Symbol(c)
    ensures Register(c)
  {}

  lemma UpperBitsLinear(x: bv32, y: bv32)
    ensures UpperBits(Xor(x, y)) == Xor(UpperBits(x), UpperBits(y))
  {}

  lemma CarriesLinear(x: bv32, y: bv32)
    ensures Carries(Xor(x, y)) == Xor(Carries(x), Carries(y))
  {}

  lemma UpThreeLinear(x: bv32, y: bv32)
    ensures UpThree(Xor(x, y)) == Xor(UpThree(x), UpThree(y))
  {}

  lemma DoubleLinear(x: bv32, y: bv32)
    ensures Double(Xor(x, y)) == Xor(Double(x), Double(y))
  {
    hide Xor, UpperBits, Carries, UpThree;
    var s, t := Carries(x), Carries(y);
    UpperBitsLinear(x, y);
    CarriesLinear(x, y);
    UpThreeLinear(s, t);
    XorSplit(s, t, UpThree(s), UpThree(t));
    XorSplit(UpperBits(x), UpperBits(y), Xor(s, UpThree(s)), Xor(t, UpThree(t)));
  }

  lemma DoubleSymbol(c: bv32)
    requires Register(c)
    ensures Register(Double(c))
    ensures Symbol(Double(c)) <==> Symbol(c)
    ensures Double(c) == 0 <==> c == 0
  {}

  lemma DoubleBits(c: bv32)
    requires Register(c)
    ensures UpperBits(Kept(c)) == Kept(UpperBits(c)) && Carries(Kept(c)) == Kept(Carries(c))
    ensures UpThree(Kept(Carries(c))) == Kept(UpThree(Carries(c)))
    ensures UpperBits(c) >> 25 == UpperBits(c >> 25) && Carries(c) >> 25 == Carries(c >> 25)
    ensures UpThree(Carries(c)) >> 25 == UpThree(Carries(c) >> 25)
  {}

  lemma DoubleFields(c: bv32)
    requires Register(c)
    ensures Double(Kept(c)) == Kept(Double(c))
    ensures Double(c) >> 25 == Double(c >> 25)
  {
    DoubleBits(c);
    hide Xor, Kept, UpperBits, Carries, UpThree, Register;
    var t := Carries(c);
    FieldsLinear(t, UpThree(t));
    FieldsLinear(UpperBits(c), Xor(t, UpThree(t)));
  }

  /** The feedback of a single bit is a generator constant, and doubling goes from one to the next. */
  lemma FeedbackOfBits()
    ensures Feedback(0, 5) == 0 && Feedback(1, 5) == 0x3b6a57b2 && Feedback(2, 5) == 0x26508e6d
    ensures Feedback(4, 5) == 0x1ea119fa && Feedback(8, 5) == 0x3d4233dd && Feedback(16, 5) == 0x2a1462b3
  {
    FeedbackUnfolded(0);
    FeedbackUnfolded(1);
    FeedbackUnfolded(2);
    FeedbackUnfolded(4);
    FeedbackUnfolded(8);
    FeedbackUnfolded(16);
    hide Feedback;
  }

  lemma DoubledBits()
    ensures Double(0) == 0 && Double(1) == 2 && Double(2) == 4 && Double(4) == 8 && Double(8) == 16
    ensures Double(16) == Xor(8, 1)
  {}

  lemma DoubledConstants()
    ensures Double(0x3b6a57b2) == 0x26508e6d && Double(0x26508e6d) == 0x1ea119fa
    ensures Double(0x1ea119fa) == 0x3d4233dd && Double(0x3d4233dd) == 0x2a1462b3
    ensures Double(0x2a1462b3) == Xor(0x3d4233dd, 0x3b6a57b2)
  {}

  lemma DoubleFeedbackBit(a: bv32)
    requires a in {0, 1, 2, 4, 8, 16}
    ensures Double(Feedback(a, 5)) == Feedback(Double(a), 5)
  {
    FeedbackOfBits();
    DoubledBits();
    DoubledConstants();
    FeedbackLinear(8, 1, 5);
    hide Feedback, Double, Xor;
  }

  lemma SumOfBits(a: bv32)
    requires a < 32
    ensures a == Xor(Xor(Xor(Xor(a & 1, a & 2), a & 4), a & 8), a & 16)
    ensures a & 1 in {0, 1} && a & 2 in {0, 2} && a & 4 in {0, 4} && a & 8 in {0, 8} && a & 16 in {0, 16}
  {}

  lemma DoubleFeedback(a: bv32)
    requires a < 32
    ensures Double(Feedback(a, 5)) == Feedback(Double(a), 5)
  {
    hide Double, Feedback, Xor;
    SumOfBits(a);
    DoubleFeedbackBit(a & 1);
    DoubleFeedbackBit(a & 2);
    DoubleFeedbackBit(a & 4);
    DoubleFeedbackBit(a & 8);
    DoubleFeedbackBit(a & 16);
    var two := Xor(a & 1, a & 2);
    var three := Xor(two, a & 4);
    var four := Xor(three, a & 8);
    BothLinear(a & 1, a & 2);
    BothLinear(two, a & 4);
    BothLinear(three, a & 8);
    BothLinear(four, a & 16);
  }

  /** Doubling and feedback, in either order, of a sum. */
  lemma BothLinear(a: bv32, b: bv32)
    ensures Double(Feedback(Xor(a, b), 5)) == Xor(Double(Feedback(a, 5)), Double(Feedback(b, 5)))
    ensures Feedback(Double(Xor(a, b)), 5) == Xor(Feedback(Double(a), 5), Feedback(Double(b), 5))
  {
    hide Double, Feedback, Xor;
    FeedbackLinear(a, b, 5);
    DoubleLinear(a, b);
    DoubleLinear(Feedback(a, 5), Feedback(b, 5));
    FeedbackLinear(Double(a), Double(b), 5);
  }

  lemma DoubleShift(c: bv32)
    requires Register(c)
    ensures Double(Shift(c)) == Shift(Double(c))
  {
    KeptFields(c);
    hide Xor, Kept, Feedback, Double, Register;
    DoubleFields(c);
    DoubleLinear(Kept(c), Feedback(c >> 25, 5));
    DoubleFeedback(c >> 25);
  }

  lemma {:induction false} DoubleShifted(c: bv32, n: nat)
    requires Register(c)
    ensures Shifted(Double(c), n) == Double(Shifted(c, n))
  {
    hide Shift, Double, Register;
    DoubleSymbol(c);
    if n > 0 {
      DoubleShifted(c, n - 1);
      ShiftedRegister(c, n - 1);
      DoubleShift(Shifted(c, n - 1));
    }
  }

  /** The powers of 2 in GF(32), which are all its elements but zero. */
  function PowerOf2(m: nat): bv32
  {
    if m == 0 then 1 else Double(PowerOf2(m - 1))
  }

  lemma PowerStep(m: nat, v: bv32, w: bv32)
    requires PowerOf2(m) == v && Double(v) == w
    ensures PowerOf2(m + 1) == w
  {
    hide Double;
  }

  lemma AllPowers()
    ensures PowerOf2(0) == 1 && PowerOf2(1) == 2 && PowerOf2(2) == 4 && PowerOf2(3) == 8 && PowerOf2(4) == 16
    ensures PowerOf2(5) == 9 && PowerOf2(6) == 18 && PowerOf2(7) == 13 && PowerOf2(8) == 26 && PowerOf2(9) == 29
    ensures PowerOf2(10) == 19 && PowerOf2(11) == 15 && PowerOf2(12) == 30 && PowerOf2(13) == 21 && PowerOf2(14) == 3
    ensures PowerOf2(15) == 6 && PowerOf2(16) == 12 && PowerOf2(17) == 24 && PowerOf2(18) == 25 && PowerOf2(19) == 27
    ensures PowerOf2(20) == 31 && PowerOf2(21) == 23 && PowerOf2(22) == 7 && PowerOf2(23) == 14 && PowerOf2(24) == 28
    ensures PowerOf2(25) == 17 && PowerOf2(26) == 11 && PowerOf2(27) == 22 && PowerOf2(28) == 5 && PowerOf2(29) == 10
    ensures PowerOf2(30) == 20
  {
    assert PowerOf2(0) == 1;
    hide PowerOf2;
    PowerStep(0, 1, 2);
    PowerStep(1, 2, 4);
    PowerStep(2, 4, 8);
    PowerStep(3, 8, 16);
    PowerStep(4, 16, 9);
    PowerStep(5, 9, 18);
    PowerStep(6, 18, 13);
    PowerStep(7, 13, 26);
    PowerStep(8, 26, 29);
    PowerStep(9, 29, 19);
    PowerStep(10, 19, 15);
    PowerStep(11, 15, 30);
    PowerStep(12, 30, 21);
    PowerStep(13, 21, 3);
    PowerStep(14, 3, 6);
    PowerStep(15, 6, 12);
    PowerStep(16, 12, 24);
    PowerStep(17, 24, 25);
    PowerStep(18, 25, 27);
    PowerStep(19, 27, 31);
    PowerStep(20, 31, 23);
    PowerStep(21, 23, 7);
    PowerStep(22, 7, 14);
    PowerStep(23, 14, 28);
    PowerStep(24, 28, 17);
    PowerStep(25, 17, 11);
    PowerStep(26, 11, 22);
    PowerStep(27, 22, 5);
    PowerStep(28, 5, 10);
    PowerStep(29, 10, 20);
  }

  lemma PowersAreAll(d: bv32) returns (m: nat)
    requires 0 < d < 32
    ensures PowerOf2(m) == d
  {
    hide PowerOf2, Double;
    AllPowers();
    if d == 1 { return 0; } if d == 2 { return 1; } if d == 4 { return 2; } if d == 8 { return 3; }
    if d == 16 { return 4; } if d == 9 { return 5; } if d == 18 { return 6; } if d == 13 { return 7; }
    if d == 26 { return 8; } if d == 29 { return 9; } if d == 19 { return 10; } if d == 15 { return 11; }
    if d == 30 { return 12; } if d == 21 { return 13; } if d == 3 { return 14; } if d == 6 { return 15; }
    if d == 12 { return 16; } if d == 24 { return 17; } if d == 25 { return 18; } if d == 27 { return 19; }
    if d == 31 { return 20; } if d == 23 { return 21; } if d == 7 { return 22; } if d == 14 { return 23; }
    if d == 28 { return 24; } if d == 17 { return 25; } if d == 11 { return 26; } if d == 22 { return 27; }
    if d == 5 { return 28; } if d == 10 { return 29; } if d == 20 { return 30; }
  }

  /** Constant factors do not matter for whether a state is a constant, and come back after a full period. */
  lemma {:induction false} ShiftedPower(m: nat, n: nat)
    ensures Symbol(PowerOf2(m)) && PowerOf2(m) != 0
    ensures Symbol(Shifted(PowerOf2(m), n)) <==> Symbol(Shifted(1, n))
    ensures Shifted(1, n) == 1 ==> Shifted(PowerOf2(m), n) == PowerOf2(m)
  {
    NoShift();
    OneIsRegister();
    hide Shift, Double, Register, Shifted, Symbol;
    if m > 0 {
      ShiftedPower(m - 1, n);
      SymbolRegister(PowerOf2(m - 1));
      DoubleShifted(PowerOf2(m - 1), n);
      ShiftedRegister(PowerOf2(m - 1), n);
      DoubleSymbol(PowerOf2(m - 1));
      DoubleSymbol(Shifted(PowerOf2(m - 1), n));
    }
  }

  // No power of x below 1023 is a constant.

  predicate Constant(n: nat) {
    Symbol(Shifted(1, n))
  }

  lemma ConstantSum(m: nat, n: nat)
    requires Constant(m)
    ensures Constant(m + n) <==> Constant(n)
  {
    OneIsRegister();
    hide Shift, Shifted, PowerOf2, Register;
    ShiftedAdd(1, m, n);
    var d := Shifted(1, m);
    ShiftedZero(1, m);
    var e := PowersAreAll(d);
    ShiftedPower(e, n);
  }

  lemma {:induction false} ConstantMultiple(n: nat, m: nat)
    requires Constant(n)
    ensures Constant(m * n)
  {
    assert Constant(0);
    hide Constant;
    if m == 0 {
    } else {
      ConstantMultiple(n, m - 1);
      ConstantSum(n, (m - 1) * n);
      assert n + (m - 1) * n == m * n;
    }
  }

  lemma {:induction false} Remainder(total: nat, n: nat) returns (q: nat, r: nat)
    requires n > 0 && Constant(n) && Constant(total)
    ensures total == q * n + r && r < n && Constant(r)
    decreases total
  {
    hide Constant;
    if total < n {
      q, r := 0, total;
    } else {
      ConstantSum(n, total - n);
      q, r := Remainder(total - n, n);
      q := q + 1;
      assert q * n == (q - 1) * n + n;
    }
  }

  /** 1023 is 3 times 11 times 31, so a proper divisor divides 341, 93 or 33. */
  lemma ProperDivisor(n: nat, q: nat) returns (m: nat)
    requires 0 < n < 1023 && q * n == 1023
    ensures m * n == 341 || m * n == 93 || m * n == 33
  {
    assert n >= 32 && q >= 32 ==> q * n >= 32 * 32;
    if n < 32 {
      m := SmallDivisor(n, q);
    } else if q < 32 {
      var _ := SmallDivisor(q, n);
      m := 1;
    } else {
      assert false;
    }
  }

  /** The divisors below 32, with the cofactor in the nearest of the three. */
  lemma SmallDivisor(n: nat, q: nat) returns (m: nat)
    requires 0 < n < 32 && q * n == 1023
    ensures n in {1, 3, 11, 31} && (m * n == 341 || m * n == 93 || m * n == 33)
  {
    m := if n == 1 then 33 else if n == 3 then 11 else if n == 11 then 3 else 3;
  }

  lemma {:induction false} NoConstant(n: nat)
    requires 0 < n < 1023
    ensures !Constant(n)
    decreases n
  {
    NoShift();
    if Constant(n) {
      Power1023();
      hide Shifted;
      assert Constant(1023);
      var q, r := Remainder(1023, n);
      if r > 0 {
        NoConstant(r);
      } else {
        var m := ProperDivisor(n, q);
        ConstantMultiple(n, m);
        Power33();
        Power93();
        Power341();
      }
    }
  }

  /** A power of x is a constant exactly when 1023 divides the exponent, and then it is 1. */
  lemma {:induction false} ConstantExactly(n: nat)
    ensures Constant(n) <==> n % 1023 == 0
    ensures Constant(n) ==> Shifted(1, n) == 1
    decreases n
  {
    NoShift();
    hide Shifted, Symbol;
    Power1023();
    if n >= 1023 {
      ConstantExactly(n - 1023);
      ShiftedAdd(1, 1023, n - 1023);
    } else if n > 0 {
      NoConstant(n);
    }
  }

  /** A changed symbol comes back as a change of a single symbol exactly at the multiples of 1023, unaltered. */
  lemma ChangeComesBack(d: bv32, n: nat, e: bv32)
    requires 0 < d < 32 && e < 32
    ensures Shifted(d, n) == e <==> n % 1023 == 0 && e == d
  {
    hide Shifted, PowerOf2;
    ConstantExactly(n);
    var m := PowersAreAll(d);
    ShiftedPower(m, n);
  }

  // Two changed symbols of a word.

  lemma {:induction false} SameSymbols(e: bv32, s: seq<Byte>)
    ensures RunDifference(e, s, s) == Shifted(e, |s|)
    decreases s
  {
    hide Shift, Xor, AsWord;
    if s != [] {
      XorZero(AsWord(s[0]));
      XorZero(Shift(e));
      SameSymbols(Shift(e), s[1..]);
      ShiftedAdd(e, 1, |s| - 1);
      assert Shifted(e, 1) == Shift(Shifted(e, 0));
    }
  }

  /** The states after x, between and y, and after x', between and y', differ by the two changes. */
  lemma TwoChanges(c: bv32, x: bv32, x': bv32, between: seq<Byte>, y: bv32, y': bv32)
    ensures Xor(Step(Run(Step(c, x), between), y), Step(Run(Step(c, x'), between), y'))
         == Xor(Shifted(Xor(x, x'), |between| + 1), Xor(y, y'))
  {
    hide Shift, Xor, Run, RunDifference;
    StepLinear(c, c, x, x');
    XorZero(c);
    ShiftOfZero();
    XorZero(Xor(x, x'));
    RunLinear(Step(c, x), Step(c, x'), between, between);
    SameSymbols(Xor(x, x'), between);
    StepLinear(Run(Step(c, x), between), Run(Step(c, x'), between), y, y');
  }

  function WithTwo(before: seq<Byte>, x: Byte, between: seq<Byte>, y: Byte, after: seq<Byte>): seq<Byte> {
    before + [x] + between + [y] + after
  }

  lemma RunWord(before: seq<Byte>, x: Byte, between: seq<Byte>, y: Byte, after: seq<Byte>)
    ensures Run(1, WithTwo(before, x, between, y, after))
         == Run(Step(Run(Step(Run(1, before), AsWord(x)), between), AsWord(y)), after)
  {
    hide Run, Step;
    RunAppend(1, before + [x] + between + [y], after);
    RunSnoc(1, before + [x] + between, y);
    RunAppend(1, before + [x], between);
    RunSnoc(1, before, x);
  }

  /**
   Changing two symbols of a valid word leaves it valid exactly when they are a multiple of 1023 apart and
   changed by the same difference.
   */
  lemma TwoChangesExactly(before: seq<Byte>, x: Byte, x': Byte, between: seq<Byte>, y: Byte, y': Byte, after: seq<Byte>)
    requires x < 32 && x' < 32 && y < 32 && y' < 32 && x != x' && y != y'
    requires Valid(WithTwo(before, x, between, y, after))
    ensures Valid(WithTwo(before, x', between, y', after))
       <==> (|between| + 1) % 1023 == 0 && Xor(AsWord(x), AsWord(x')) == Xor(AsWord(y), AsWord(y'))
  {
    OneIsRegister();
    hide Run, Step, Xor, Shifted, WithTwo, Register, AsWord;
    RunWord(before, x, between, y, after);
    RunWord(before, x', between, y', after);
    SymbolWord(x);
    SymbolWord(x');
    SymbolWord(y);
    SymbolWord(y');
    RunRegister(1, before);
    var c := Run(1, before);
    var s := EndOf(c, AsWord(x), between, AsWord(y));
    var s' := EndOf(c, AsWord(x'), between, AsWord(y'));
    EndRegister(c, AsWord(x), between, AsWord(y));
    EndRegister(c, AsWord(x'), between, AsWord(y'));
    if Run(s', after) == 1 {
      RunInjective(s, s', after);
    }
    var dx, dy := Xor(AsWord(x), AsWord(x')), Xor(AsWord(y), AsWord(y'));
    SymbolXor(AsWord(x), AsWord(x'));
    SymbolXor(AsWord(y), AsWord(y'));
    XorSame(AsWord(x), AsWord(x'));
    TwoChanges(c, AsWord(x), AsWord(x'), between, AsWord(y), AsWord(y'));
    XorSame(s, s');
    XorSame(Shifted(dx, |between| + 1), dy);
    ChangeComesBack(dx, |between| + 1, dy);
  }

  function EndOf(c: bv32, x: bv32, between: seq<Byte>, y: bv32): bv32 {
    Step(Run(Step(c, x), between), y)
  }

  lemma EndRegister(c: bv32, x: bv32, between: seq<Byte>, y: bv32)
    requires Register(c) && x < 32 && y < 32
    ensures Register(EndOf(c, x, between, y))
  {
    SymbolIsRegister(x);
    SymbolIsRegister(y);
    hide Run, Step, Register;
    StepRegister(c, x);
    RunRegister(Step(c, x), between);
    StepRegister(Run(Step(c, x), between), y);
  }
}
