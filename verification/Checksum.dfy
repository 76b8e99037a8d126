/**
 csharp/SopsEncrypt.cs, Bech32.Polymod: the 30-bit BCH checksum register of BIP 173, kept in
 a C# uint. Its step is linear over XOR, a bijection on register states, and one step of
 polynomial division over GF(32); together these give burst-error detection.
 */
module Checksum {
  import opened BitStrings

  const GENERATOR: seq<bv32> := [0x3b6a57b2, 0x26508e6d, 0x1ea119fa, 0x3d4233dd, 0x2a1462b3]

  /** The states the register can reach from 1 on 5-bit symbols. */
  predicate Register(c: bv32) {
    c < 0x4000_0000
  }

  predicate Symbols(vs: seq<Byte>) {
    forall i :: 0 <= i < |vs| ==> vs[i] < 32
  }

  function AsWord(v: Byte): bv32 {
    v as bv32
  }

  // XOR and the kept part of the register are named so that algebraic proofs can hide the bits.

  function Xor(a: bv32, b: bv32): bv32 {
    a ^ b
  }

  function Kept(c: bv32): bv32 {
    (c & 0x1ff_ffff) << 5
  }

  predicate BitSet(top: bv32, i: nat)
    requires i < 5
  {
    match i
    case 0 => top & 1 != 0 case 1 => top & 2 != 0 case 2 => top & 4 != 0 case 3 => top & 8 != 0 case 4 => top & 16 != 0
  }

  function Tap(top: bv32, i: nat): bv32
    requires i < 5
  {
    if BitSet(top, i) then GENERATOR[i] else 0
  }

  /** The first n of the five conditional generator terms. */
  function Feedback(top: bv32, n: nat): bv32
    requires n <= 5
  {
    if n == 0 then 0 else Xor(Feedback(top, n - 1), Tap(top, n - 1))
  }

  /** What the register becomes on the symbol 0. */
  function Shift(c: bv32): bv32 {
    Xor(Kept(c), Feedback(c >> 25, 5))
  }

  function Step(c: bv32, v: bv32): bv32 {
    Xor(Shift(c), v)
  }

  function Run(c: bv32, vs: seq<Byte>): bv32
    decreases vs
  {
    if vs == [] then c else Run(Step(c, AsWord(vs[0])), vs[1..])
  }

  lemma {:induction false} RunAppend(c: bv32, a: seq<Byte>, b: seq<Byte>)
    ensures Run(c, a + b) == Run(Run(c, a), b)
    decreases a
  {
    hide Step, AsWord;
    if a == [] {
      assert a + b == b;
    } else {
      RunAppend(Step(c, AsWord(a[0])), a[1..], b);
      assert (a + b)[1..] == a[1..] + b;
    }
  }

  lemma RunSnoc(c: bv32, a: seq<Byte>, v: Byte)
    ensures Run(c, a + [v]) == Step(Run(c, a), AsWord(v))
  {
    hide Step, AsWord;
    RunAppend(c, a, [v]);
    assert [v][1..] == [];
  }

  method Polymod(values: seq<Byte>) returns (chk: bv32)
    ensures chk == Run(1, values)
  {
    hide Run, AsWord;
    chk := 1;
    RunNothing(1);
    assert values[..0] == [];
    for k := 0 to |values|
      invariant chk == Run(1, values[..k])
    {
      chk := Mix(chk, AsWord(values[k]));
      assert values[..k + 1] == values[..k] + [values[k]];
      RunSnoc(1, values[..k], values[k]);
    }
    assert values[..|values|] == values;
  }

  lemma RunNothing(c: bv32)
    ensures Run(c, []) == c
  {}

  /** The body of Polymod's outer loop. */
  method Mix(chk0: bv32, v: bv32) returns (chk: bv32)
    ensures chk == Step(chk0, v)
  {
    hide Feedback, Tap;
    var top := chk0 >> 25;
    chk := (chk0 & 0x1ff_ffff) << 5;
    chk := Xor(chk, v);
    ghost var mixed := chk;
    FeedbackStart(top, mixed);
    for i := 0 to 5
      invariant chk == Xor(mixed, Feedback(top, i))
    {
      FeedbackNext(top, i, mixed);
      if (top >> i) & 1 == 1 {
        chk := Xor(chk, GENERATOR[i]);
      }
    }
    XorSwap(Kept(chk0), v, Feedback(top, 5));
  }

  lemma FeedbackStart(top: bv32, m: bv32)
    ensures Xor(m, Feedback(top, 0)) == m
  {}

  /** What the i-th turn of the inner loop does is to add the i-th conditional term. */
  lemma FeedbackNext(top: bv32, i: nat, m: bv32)
    requires i < 5
    ensures Xor(m, Feedback(top, i + 1))
         == if (top >> i) & 1 == 1 then Xor(Xor(m, Feedback(top, i)), GENERATOR[i]) else Xor(m, Feedback(top, i))
  {
    ShiftedBit(top, i);
    XorAssoc(m, Feedback(top, i), Tap(top, i));
    XorZero(Feedback(top, i));
  }

  lemma ShiftedBit(top: bv32, i: nat)
    requires i < 5
    ensures BitSet(top, i) <==> (top >> i) & 1 == 1
  {
    match i case 0 => case 1 => case 2 => case 3 => case 4 =>
  }

  // XOR is a commutative group in which every element is its own inverse.

  lemma XorCommutes(a: bv32, b: bv32)
    ensures Xor(a, b) == Xor(b, a)
  {}

  lemma XorAssoc(a: bv32, b: bv32, c: bv32)
    ensures Xor(Xor(a, b), c) == Xor(a, Xor(b, c))
  {}

  lemma XorZero(a: bv32)
    ensures Xor(a, a) == 0 && Xor(a, 0) == a && Xor(0, a) == a
  {}

  lemma XorSwap(a: bv32, b: bv32, c: bv32)
    ensures Xor(Xor(a, b), c) == Xor(Xor(a, c), b)
  {
    hide Xor;
    XorAssoc(a, b, c);
    XorCommutes(b, c);
    XorAssoc(a, c, b);
  }

  lemma XorSplit(a: bv32, b: bv32, c: bv32, d: bv32)
    ensures Xor(Xor(a, b), Xor(c, d)) == Xor(Xor(a, c), Xor(b, d))
  {
    hide Xor;
    XorAssoc(Xor(a, b), c, d);
    XorSwap(a, b, c);
    XorAssoc(Xor(a, c), b, d);
  }

  lemma XorCancel(a: bv32, b: bv32)
    ensures Xor(Xor(a, b), b) == a
  {
    hide Xor;
    XorAssoc(a, b, b);
    XorZero(b);
    XorZero(a);
  }

  lemma XorSame(a: bv32, b: bv32)
    ensures Xor(a, b) == 0 <==> a == b
  {
    hide Xor;
    XorCancel(a, b);
    XorZero(b);
  }

  // Linearity over XOR.

  lemma TapLinear(x: bv32, y: bv32, i: nat)
    requires i < 5
    ensures Tap(Xor(x, y), i) == Xor(Tap(x, i), Tap(y, i))
  {
    BitSetXor(x, y, i);
    hide BitSet, Xor;
    XorZero(GENERATOR[i]);
    XorZero(0);
  }

  lemma BitSetXor(x: bv32, y: bv32, i: nat)
    requires i < 5
    ensures BitSet(Xor(x, y), i) == (BitSet(x, i) != BitSet(y, i))
  {
    match i case 0 => case 1 => case 2 => case 3 => case 4 =>
  }

  lemma {:induction false} FeedbackLinear(x: bv32, y: bv32, n: nat)
    requires n <= 5
    ensures Feedback(Xor(x, y), n) == Xor(Feedback(x, n), Feedback(y, n))
  {
    hide Tap, Xor;
    if n == 0 {
      XorZero(0);
    } else {
      FeedbackLinear(x, y, n - 1);
      TapLinear(x, y, n - 1);
      XorSplit(Feedback(x, n - 1), Feedback(y, n - 1), Tap(x, n - 1), Tap(y, n - 1));
    }
  }

  lemma ShiftLinear(x: bv32, y: bv32)
    ensures Shift(Xor(x, y)) == Xor(Shift(x), Shift(y))
  {
    FieldsLinear(x, y);
    hide Feedback, Kept, Xor;
    FeedbackLinear(x >> 25, y >> 25, 5);
    XorSplit(Kept(x), Kept(y), Feedback(x >> 25, 5), Feedback(y >> 25, 5));
  }

  lemma FieldsLinear(x: bv32, y: bv32)
    ensures Xor(x, y) >> 25 == Xor(x >> 25, y >> 25)
    ensures Kept(Xor(x, y)) == Xor(Kept(x), Kept(y))
  {}

  lemma StepLinear(c: bv32, d: bv32, x: bv32, y: bv32)
    ensures Xor(Step(c, x), Step(d, y)) == Step(Xor(c, d), Xor(x, y))
  {
    hide Shift, Xor;
    ShiftLinear(c, d);
    XorSplit(Shift(c), x, Shift(d), y);
  }

  /** The run of the difference of two words, symbol by symbol. */
  function RunDifference(e: bv32, a: seq<Byte>, b: seq<Byte>): bv32
    requires |a| == |b|
    decreases a
  {
    if a == [] then e else RunDifference(Step(e, Xor(AsWord(a[0]), AsWord(b[0]))), a[1..], b[1..])
  }

  /** The register is linear: the difference of two runs is the run of the difference. */
  lemma {:induction false} RunLinear(c: bv32, d: bv32, a: seq<Byte>, b: seq<Byte>)
    requires |a| == |b|
    ensures Xor(Run(c, a), Run(d, b)) == RunDifference(Xor(c, d), a, b)
    decreases a
  {
    hide Step, Xor, AsWord;
    if a != [] {
      var x, y := AsWord(a[0]), AsWord(b[0]);
      StepLinear(c, d, x, y);
      RunLinear(Step(c, x), Step(d, y), a[1..], b[1..]);
    }
  }

  // The step is a bijection on register states.

  /** The inverse, over GF(2), of the map from the five bits shifted out to the low symbol of their feedback. */
  function ShiftedOut(low: bv32): bv32 {
    (if low & 1 != 0 then 17 else 0) ^ (if low & 2 != 0 then 11 else 0) ^ (if low & 4 != 0 then 22 else 0)
    ^ (if low & 8 != 0 then 5 else 0) ^ (if low & 16 != 0 then 10 else 0)
  }

  /** The register whose top five bits are t and whose other bits are w's above the low symbol. */
  function Rejoin(w: bv32, t: bv32): bv32 {
    (w >> 5) | (t << 25)
  }

  /** Undoes Shift. */
  function Unshift(c: bv32): bv32 {
    var top := ShiftedOut(c & 31);
    Rejoin(Xor(c, Feedback(top, 5)), top)
  }

  lemma FeedbackUnfolded(top: bv32)
    ensures Feedback(top, 5) == Xor(Xor(Xor(Xor(Tap(top, 0), Tap(top, 1)), Tap(top, 2)), Tap(top, 3)), Tap(top, 4))
  {
    hide Xor, Tap;
    XorZero(Tap(top, 0));
    assert Feedback(top, 1) == Tap(top, 0);
    assert Feedback(top, 3) == Xor(Xor(Tap(top, 0), Tap(top, 1)), Tap(top, 2));
  }

  lemma FeedbackLowSymbol(t: bv32)
    requires t < 32
    ensures Register(Feedback(t, 5))
    ensures ShiftedOut(Feedback(t, 5) & 31) == t
    ensures ShiftedOut(t) < 32 && Feedback(ShiftedOut(t), 5) & 31 == t
  {
    FeedbackUnfolded(t);
    FeedbackUnfolded(ShiftedOut(t));
    hide Feedback;
  }

  lemma KeptFields(c: bv32)
    requires Register(c)
    ensures c >> 25 < 32 && Register(Kept(c)) && Kept(c) & 31 == 0 && Rejoin(Kept(c), c >> 25) == c
  {}

  lemma RejoinedFields(w: bv32, t: bv32)
    requires Register(w) && t < 32 && w & 31 == 0
    ensures Register(Rejoin(w, t)) && Rejoin(w, t) >> 25 == t && Kept(Rejoin(w, t)) == w
  {}

  lemma XorFields(a: bv32, b: bv32)
    ensures Register(a) && Register(b) ==> Register(Xor(a, b))
    ensures a & 31 == 0 ==> Xor(a, b) & 31 == b & 31
    ensures a & 31 == b & 31 ==> Xor(a, b) & 31 == 0
    ensures a & 31 < 32
  {}

  lemma UnshiftShift(c: bv32)
    requires Register(c)
    ensures Register(Shift(c)) && Unshift(Shift(c)) == c
  {
    KeptFields(c);
    hide Feedback, ShiftedOut, Kept, Xor, Rejoin, Register;
    var f := Feedback(c >> 25, 5);
    FeedbackLowSymbol(c >> 25);
    XorFields(Kept(c), f);
    XorCancel(Kept(c), f);
  }

  lemma ShiftUnshift(c: bv32)
    requires Register(c)
    ensures Register(Unshift(c)) && Shift(Unshift(c)) == c
  {
    hide Feedback, ShiftedOut, Kept, Xor, Rejoin, Register;
    XorFields(c, 0);
    var t := ShiftedOut(c & 31);
    FeedbackLowSymbol(c & 31);
    FeedbackLowSymbol(t);
    var f := Feedback(t, 5);
    XorFields(c, f);
    RejoinedFields(Xor(c, f), t);
    XorCancel(c, f);
  }

  lemma ShiftBijective(c: bv32)
    requires Register(c)
    ensures Register(Shift(c)) && Unshift(Shift(c)) == c
    ensures Register(Unshift(c)) && Shift(Unshift(c)) == c
  {
    hide Shift, Unshift, Register;
    UnshiftShift(c);
    ShiftUnshift(c);
  }

  lemma StepInjective(x: bv32, y: bv32, v: bv32)
    requires Register(x) && Register(y) && Step(x, v) == Step(y, v)
    ensures x == y
  {
    hide Shift, Unshift, Xor;
    ShiftBijective(x);
    ShiftBijective(y);
    XorCancel(Shift(x), v);
    XorCancel(Shift(y), v);
  }

  // The feedback is multiplication by the BIP 173 generator polynomial over GF(32).

  /** Multiplication by x in GF(32), reduced by x^5 + x^3 + 1. */
  function Twice(a: bv32): bv32 {
    if a & 16 != 0 then (a << 1) ^ 0x29 else a << 1
  }

  function Times(a: bv32, b: bv32): bv32 {
    (if b & 1 != 0 then a else 0) ^ (if b & 2 != 0 then Twice(a) else 0)
    ^ (if b & 4 != 0 then Twice(Twice(a)) else 0) ^ (if b & 8 != 0 then Twice(Twice(Twice(a))) else 0)
    ^ (if b & 16 != 0 then Twice(Twice(Twice(Twice(a)))) else 0)
  }

  /** The register read as a polynomial over GF(32) of degree at most five. */
  function Coefficient(c: bv32, i: nat): bv32
    requires i < 6
  {
    match i case 0 => c & 31 case 1 => (c >> 5) & 31 case 2 => (c >> 10) & 31
    case 3 => (c >> 15) & 31 case 4 => (c >> 20) & 31 case 5 => (c >> 25) & 31
  }

  /** g(x) = x^6 + 29 x^5 + 22 x^4 + 20 x^3 + 21 x^2 + 29 x + 18: the coefficients below x^6. */
  const GENERATOR_POLYNOMIAL: seq<bv32> := [18, 29, 21, 20, 22, 29]

  lemma FeedbackIsProduct(top: bv32, i: nat)
    requires top < 32 && i < 6
    ensures Coefficient(Feedback(top, 5), i) == Times(GENERATOR_POLYNOMIAL[i], top)
  {
    FeedbackUnfolded(top);
    hide Feedback;
    match i case 0 => case 1 => case 2 => case 3 => case 4 => case 5 =>
  }

  lemma CoefficientXor(a: bv32, b: bv32, i: nat)
    requires i < 6
    ensures Coefficient(Xor(a, b), i) == Xor(Coefficient(a, i), Coefficient(b, i))
  {
    match i case 0 => case 1 => case 2 => case 3 => case 4 => case 5 =>
  }

  lemma TopCoefficient(c: bv32)
    requires Register(c)
    ensures Coefficient(c, 5) == c >> 25
  {}

  lemma KeptCoefficient(c: bv32, i: nat)
    requires i < 6
    ensures Coefficient(Kept(c), i) == if i == 0 then 0 else Coefficient(c, i - 1)
  {
    match i case 0 => case 1 => case 2 => case 3 => case 4 => case 5 =>
  }

  lemma SymbolCoefficient(v: bv32, i: nat)
    requires v < 32 && i < 6
    ensures Coefficient(v, i) == if i == 0 then v else 0
  {
    match i case 0 => case 1 => case 2 => case 3 => case 4 => case 5 =>
  }

  lemma CoefficientFields(c: bv32, v: bv32, i: nat)
    requires Register(c) && v < 32 && i < 6
    ensures Coefficient(c, 5) == c >> 25
    ensures Coefficient(Kept(c), i) == if i == 0 then 0 else Coefficient(c, i - 1)
    ensures Coefficient(v, i) == if i == 0 then v else 0
  {
    TopCoefficient(c);
    KeptCoefficient(c, i);
    SymbolCoefficient(v, i);
    hide Coefficient, Kept, Register;
  }

  lemma XorEnds(k: bv32, f: bv32, v: bv32)
    ensures Xor(Xor(0, f), v) == Xor(f, v) && Xor(Xor(k, f), 0) == Xor(f, k)
  {}

  lemma ShiftCoefficient(c: bv32, i: nat)
    requires Register(c) && i < 6
    ensures Coefficient(Shift(c), i)
         == Xor(Coefficient(Kept(c), i), Times(GENERATOR_POLYNOMIAL[i], Coefficient(c, 5)))
  {
    KeptFields(c);
    CoefficientFields(c, 0, i);
    hide Feedback, Times, Coefficient, Xor, Kept, Register;
    var top := c >> 25;
    FeedbackIsProduct(top, i);
    CoefficientXor(Kept(c), Feedback(top, 5), i);
  }

  /** One step multiplies the register polynomial by x, adds the symbol, and reduces modulo g(x). */
  lemma StepIsPolynomialDivision(c: bv32, v: bv32, i: nat)
    requires Register(c) && v < 32 && i < 6
    ensures Coefficient(Step(c, v), i)
         == Xor(Times(GENERATOR_POLYNOMIAL[i], Coefficient(c, 5)), if i == 0 then v else Coefficient(c, i - 1))
  {
    CoefficientFields(c, v, i);
    hide Shift, Times, Coefficient, Xor, Kept, Register;
    ShiftCoefficient(c, i);
    CoefficientXor(Shift(c), v, i);
    XorEnds(Coefficient(Kept(c), i), Times(GENERATOR_POLYNOMIAL[i], Coefficient(c, 5)), v);
  }
}
