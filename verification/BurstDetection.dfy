/**
 What the checksum register of Bech32 guarantees about symbol sequences of any length:
 there is exactly one valid checksum, and every error burst of up to six symbols is detected.
 */
module BurstDetection {
  import opened BitStrings
  import opened Checksum

  /** A word is accepted when the register ends in 1. */
  predicate Valid(vs: seq<Byte>) {
    Run(1, vs) == 1
  }

  lemma SymbolWord(v: Byte)
    requires v < 32
    ensures AsWord(v) < 32 && AsWord(v) as int == v
  {
    match v
    case 0 => case 1 => case 2 => case 3 => case 4 => case 5 => case 6 => case 7 =>
    case 8 => case 9 => case 10 => case 11 => case 12 => case 13 => case 14 => case 15 =>
    case 16 => case 17 => case 18 => case 19 => case 20 => case 21 => case 22 => case 23 =>
    case 24 => case 25 => case 26 => case 27 => case 28 => case 29 => case 30 => case 31 =>
  }

  lemma OctetWord(v: Byte)
    ensures Register(AsWord(v))
  {}

  lemma StepRegister(c: bv32, v: bv32)
    requires Register(c) && Register(v)
    ensures Register(Step(c, v))
  {
    ShiftBijective(c);
    hide Shift, Unshift;
    XorFields(Shift(c), v);
  }

  lemma SymbolIsRegister(v: bv32)
    requires v < 32
    ensures Register(v)
  {}

  lemma {:induction false} RunRegister(c: bv32, vs: seq<Byte>)
    requires Register(c)
    ensures Register(Run(c, vs))
    decreases vs
  {
    hide Step, AsWord, Register;
    if vs != [] {
      OctetWord(vs[0]);
      StepRegister(c, AsWord(vs[0]));
      RunRegister(Step(c, AsWord(vs[0])), vs[1..]);
    }
  }

  /** Reading the same symbols never merges two register states. */
  lemma {:induction false} RunInjective(c: bv32, d: bv32, vs: seq<Byte>)
    requires Register(c) && Register(d)
    requires Run(c, vs) == Run(d, vs)
    ensures c == d
    decreases vs
  {
    hide Step, AsWord, Register;
    if vs != [] {
      var v := AsWord(vs[0]);
      OctetWord(vs[0]);
      StepRegister(c, v);
      StepRegister(d, v);
      RunInjective(Step(c, v), Step(d, v), vs[1..]);
      StepInjective(c, d, v);
    }
  }

  /** Below this bound a register has room for n more symbols before anything is shifted out. */
  function Room(n: nat): bv32
    requires n <= 6
  {
    match n case 0 => 0x4000_0000 case 1 => 0x200_0000 case 2 => 0x10_0000
    case 3 => 0x8000 case 4 => 0x400 case 5 => 0x20 case 6 => 0x1
  }

  lemma FeedbackOfZero()
    ensures Feedback(0, 5) == 0
  {
    FeedbackUnfolded(0);
    hide Feedback;
  }

  /** With room left, a step only appends the symbol, so it is zero only if both parts are. */
  lemma RoomyStep(e: bv32, x: bv32, n: nat)
    requires 1 <= n <= 6 && e < Room(n) && x < 32
    ensures Step(e, x) < Room(n - 1)
    ensures Step(e, x) == 0 ==> e == 0 && x == 0
  {
    FeedbackOfZero();
    NothingShiftedOut(e, n);
    hide Feedback;
    XorZero(Kept(e));
    RoomyAppend(e, x, n);
    hide Kept, Xor;
  }

  lemma NothingShiftedOut(e: bv32, n: nat)
    requires 1 <= n <= 6 && e < Room(n)
    ensures e >> 25 == 0
  {
    match n case 1 => case 2 => case 3 => case 4 => case 5 => case 6 =>
  }

  lemma RoomyAppend(e: bv32, x: bv32, n: nat)
    requires 1 <= n <= 6 && e < Room(n) && x < 32
    ensures Xor(Kept(e), x) < Room(n - 1)
    ensures Xor(Kept(e), x) == 0 ==> e == 0 && x == 0
  {
    match n case 1 => case 2 => case 3 => case 4 => case 5 => case 6 =>
  }

  /** A difference of at most six symbols cannot vanish in the register. */
  lemma {:induction false} ShortDifference(e: bv32, a: seq<Byte>, b: seq<Byte>)
    requires |a| == |b| <= 6 && Symbols(a) && Symbols(b)
    requires e < Room(|a|)
    requires RunDifference(e, a, b) == 0
    ensures e == 0 && a == b
    decreases a
  {
    hide Step, AsWord, Xor, Room;
    if a == [] {
    } else {
      var x, y := AsWord(a[0]), AsWord(b[0]);
      SymbolWord(a[0]);
      SymbolWord(b[0]);
      SymbolXor(x, y);
      RoomyStep(e, Xor(x, y), |a|);
      ShortDifference(Step(e, Xor(x, y)), a[1..], b[1..]);
      XorSame(x, y);
      assert a == [a[0]] + a[1..] && b == [b[0]] + b[1..];
    }
  }

  lemma SymbolXor(x: bv32, y: bv32)
    requires x < 32 && y < 32
    ensures Xor(x, y) < 32
  {}

  /** From one register state, two different windows of at most six symbols end in different states. */
  lemma WindowInjective(c: bv32, a: seq<Byte>, b: seq<Byte>)
    requires |a| == |b| <= 6 && Symbols(a) && Symbols(b)
    requires Run(c, a) == Run(c, b)
    ensures a == b
  {
    assert 0 < Room(|a|);
    hide Run, Xor, RunDifference;
    RunLinear(c, c, a, b);
    XorZero(c);
    XorZero(Run(c, a));
    ShortDifference(0, a, b);
  }

  /** Changing symbols only inside a window of at most six leaves no valid word valid. */
  lemma BurstDetected(before: seq<Byte>, a: seq<Byte>, b: seq<Byte>, after: seq<Byte>)
    requires Symbols(a) && Symbols(b)
    requires |a| == |b| <= 6 && a != b
    requires Valid(before + a + after)
    ensures !Valid(before + b + after)
  {
    OneIsRegister();
    hide Register, Symbols;
    var c := Run(1, before);
    RunRegister(1, before);
    RunRegister(c, a);
    RunRegister(c, b);
    RunThree(before, a, after);
    RunThree(before, b, after);
    if Valid(before + b + after) {
      RunInjective(Run(c, a), Run(c, b), after);
      WindowInjective(c, a, b);
    }
  }

  lemma OneIsRegister()
    ensures Register(1)
  {}

  lemma RunThree(x: seq<Byte>, y: seq<Byte>, z: seq<Byte>)
    ensures Run(1, x + y + z) == Run(Run(Run(1, x), y), z)
  {
    RunAppend(1, x + y, z);
    RunAppend(1, x, y);
  }

  // The checksum.

  const SIX_ZEROS: seq<Byte> := [0, 0, 0, 0, 0, 0]

  /** (mod >> (5 * (5 - p))) & 31, the shift written out for each p. */
  function DigitWord(mod: bv32, p: nat): (w: bv32)
    requires p < 6
    ensures w < 32
  {
    match p case 0 => (mod >> 25) & 31 case 1 => (mod >> 20) & 31 case 2 => (mod >> 15) & 31
    case 3 => (mod >> 10) & 31 case 4 => (mod >> 5) & 31 case 5 => mod & 31
  }

  function Digit(mod: bv32, p: nat): (v: Byte)
    requires p < 6
    ensures v < 32 && AsWord(v) == DigitWord(mod, p)
  {
    var w := DigitWord(mod, p);
    WordDigit(w);
    w as int
  }

  lemma WordDigit(w: bv32)
    requires w < 32
    ensures w as int < 32 && AsWord(w as int) == w
  {}

  function Digits(mod: bv32): (d: seq<Byte>)
    ensures |d| == 6 && Symbols(d)
  {
    [Digit(mod, 0), Digit(mod, 1), Digit(mod, 2), Digit(mod, 3), Digit(mod, 4), Digit(mod, 5)]
  }

  lemma DigitsAt(mod: bv32, p: nat)
    requires p < 6
    ensures Digits(mod)[p] == Digit(mod, p)
  {
    hide Digit;
  }

  /** The six symbols that CreateChecksum appends to vs. */
  function ChecksumOf(vs: seq<Byte>): (c: seq<Byte>)
    ensures |c| == 6 && Symbols(c)
  {
    Digits(Xor(Run(1, vs + SIX_ZEROS), 1))
  }

  method CreateChecksum(expanded: seq<Byte>, data: seq<Byte>) returns (ret: seq<Byte>)
    ensures ret == ChecksumOf(expanded + data)
  {
    hide Run, DigitWord, Digits, Xor;
    var values := expanded + data;
    values := values + [0, 0, 0, 0, 0, 0];
    var mod := Polymod(values);
    mod := Xor(mod, 1);
    ret := [];
    for p := 0 to 6
      invariant ret == Digits(mod)[..p]
    {
      DigitsAt(mod, p);
      ret := ret + [Digit(mod, p)];
    }
    assert Digits(mod)[..6] == Digits(mod);
  }

  /** Appending a symbol to a register that has room. */
  function Append(e: bv32, x: bv32): bv32 {
    (e << 5) | x
  }

  lemma RoomyStepAppends(e: bv32, x: bv32, n: nat)
    requires 1 <= n <= 6 && e < Room(n) && x < 32
    ensures Step(e, x) == Append(e, x) && Append(e, x) < Room(n - 1)
  {
    FeedbackOfZero();
    NothingShiftedOut(e, n);
    hide Feedback;
    XorZero(Kept(e));
    AppendIsXor(e, x, n);
    hide Kept, Xor;
  }

  lemma AppendIsXor(e: bv32, x: bv32, n: nat)
    requires 1 <= n <= 6 && e < Room(n) && x < 32
    ensures Xor(Kept(e), x) == Append(e, x) && Append(e, x) < Room(n - 1)
  {
    RoomyAppend(e, x, n);
    RoomShrinks(n);
    KeptAppend(e, x);
    hide Kept, Append, Xor, Room;
  }

  lemma RoomShrinks(n: nat)
    requires 1 <= n <= 6
    ensures Room(n) <= 0x200_0000
  {
    match n case 1 => case 2 => case 3 => case 4 => case 5 => case 6 =>
  }

  lemma KeptAppend(e: bv32, x: bv32)
    requires e < 0x200_0000 && x < 32
    ensures Xor(Kept(e), x) == Append(e, x)
  {}

  /** The register after its first i digits have been written into an empty one. */
  function Written(mod: bv32, i: nat): bv32
    requires i <= 6
  {
    match i case 0 => 0 case 1 => mod >> 25 case 2 => mod >> 20 case 3 => mod >> 15
    case 4 => mod >> 10 case 5 => mod >> 5 case 6 => mod
  }

  function Drop(w: bv32): bv32 {
    w >> 5
  }

  function Low(w: bv32): bv32 {
    w & 31
  }

  lemma WrittenSteps(mod: bv32)
    ensures Register(mod) ==> Written(mod, 0) == Drop(Written(mod, 1))
    ensures Written(mod, 1) == Drop(Written(mod, 2)) && Written(mod, 2) == Drop(Written(mod, 3))
    ensures Written(mod, 3) == Drop(Written(mod, 4)) && Written(mod, 4) == Drop(Written(mod, 5))
    ensures Written(mod, 5) == Drop(Written(mod, 6))
  {
    Drops(mod);
    hide Drop, Register;
  }

  lemma Drops(mod: bv32)
    ensures Drop(mod >> 20) == mod >> 25 && Drop(mod >> 15) == mod >> 20 && Drop(mod >> 10) == mod >> 15
    ensures Drop(mod >> 5) == mod >> 10 && Drop(mod) == mod >> 5
    ensures Register(mod) ==> Drop(mod >> 25) == 0
  {}

  lemma DigitWords(mod: bv32)
    ensures DigitWord(mod, 0) == Low(Written(mod, 1)) && DigitWord(mod, 1) == Low(Written(mod, 2))
    ensures DigitWord(mod, 2) == Low(Written(mod, 3)) && DigitWord(mod, 3) == Low(Written(mod, 4))
    ensures DigitWord(mod, 4) == Low(Written(mod, 5)) && DigitWord(mod, 5) == Low(Written(mod, 6))
  {}

  lemma WrittenStep(mod: bv32, i: nat)
    requires Register(mod) && i < 6
    ensures Written(mod, i) == Drop(Written(mod, i + 1))
    ensures DigitWord(mod, i) == Low(Written(mod, i + 1))
  {
    WrittenSteps(mod);
    DigitWords(mod);
    hide Written, Drop, DigitWord, Low, Register;
    match i case 0 => case 1 => case 2 => case 3 => case 4 => case 5 =>
  }

  lemma WriteDigit(mod: bv32, i: nat)
    requires Register(mod) && i < 6
    ensures Append(Written(mod, i), DigitWord(mod, i)) == Written(mod, i + 1)
  {
    WrittenStep(mod, i);
    AppendSplit(Written(mod, i + 1));
    hide Append, Drop, Low, Written, DigitWord;
  }

  lemma AppendSplit(w: bv32)
    ensures Append(Drop(w), Low(w)) == w
  {}

  lemma {:induction false} WrittenHasRoom(mod: bv32, i: nat)
    requires Register(mod) && i <= 6
    ensures Written(mod, i) < Room(6 - i)
    decreases 6 - i
  {
    if i == 6 {
      hide DigitWord;
    } else {
      WrittenHasRoom(mod, i + 1);
      WrittenStep(mod, i);
      MakesRoom(Written(mod, i + 1), 5 - i);
      hide Room, Written, Drop, DigitWord, Low;
    }
  }

  lemma MakesRoom(w: bv32, n: nat)
    requires n < 6 && w < Room(n)
    ensures Drop(w) < Room(n + 1)
  {
    match n case 0 => case 1 => case 2 => case 3 => case 4 => case 5 =>
  }

  lemma {:induction false} RunDigits(mod: bv32, i: nat)
    requires Register(mod) && i <= 6
    ensures Run(Written(mod, i), Digits(mod)[i..]) == mod
    decreases 6 - i
  {
    hide Step, AsWord, Written, Register, Digits;
    if i == 6 {
      WrittenEnds(mod);
    } else {
      StepWrites(mod, i);
      DigitsAt(mod, i);
      var rest := Digits(mod)[i..];
      assert rest[0] == Digit(mod, i) && rest[1..] == Digits(mod)[i + 1..];
      RunDigits(mod, i + 1);
    }
  }

  lemma StepWrites(mod: bv32, i: nat)
    requires Register(mod) && i < 6
    ensures Step(Written(mod, i), AsWord(Digit(mod, i))) == Written(mod, i + 1)
  {
    hide Step, AsWord, Append, Written, DigitWord, Room, Register;
    WriteDigit(mod, i);
    WrittenHasRoom(mod, i);
    RoomyStepAppends(Written(mod, i), DigitWord(mod, i), 6 - i);
  }

  lemma WrittenEnds(mod: bv32)
    ensures Written(mod, 0) == 0 && Written(mod, 6) == mod
  {}

  /** The six symbols that take the register from c to any wanted state. */
  function Steer(c: bv32, wanted: bv32): (d: seq<Byte>)
    ensures |d| == 6 && Symbols(d)
  {
    Digits(Xor(Run(c, SIX_ZEROS), wanted))
  }

  lemma SteerReaches(c: bv32, wanted: bv32)
    requires Register(c) && Register(wanted)
    ensures Run(c, Steer(c, wanted)) == wanted
  {
    hide Run, RunDifference, Xor, Digits, Register, Written;
    var z := Run(c, SIX_ZEROS);
    var mod := Xor(z, wanted);
    var d := Digits(mod);
    RunRegister(c, SIX_ZEROS);
    XorFields(z, wanted);
    RunDigits(mod, 0);
    WrittenEnds(mod);
    assert d[0..] == d;
    // Run(c, d) and Run(0, d), which is mod, differ by Run(c, 0...0), by linearity.
    RunLinear(c, 0, d, d);
    XorZero(c);
    NoDifference(c, d, SIX_ZEROS);
    assert Xor(Run(c, d), mod) == z;
    XorCancel(Run(c, d), mod);
    XorCommutes(z, wanted);
    XorCommutes(z, mod);
    XorCancel(wanted, z);
  }

  /** The same symbols on both sides contribute nothing to a difference. */
  lemma {:induction false} NoDifference(e: bv32, d: seq<Byte>, z: seq<Byte>)
    requires |d| == |z| && forall i :: 0 <= i < |z| ==> z[i] == 0
    ensures RunDifference(e, d, d) == Run(e, z)
    decreases d
  {
    assert AsWord(0) == 0;
    hide Step, Xor, AsWord;
    if d != [] {
      XorZero(AsWord(d[0]));
      NoDifference(Step(e, 0), d[1..], z[1..]);
    }
  }

  lemma ChecksumValid(vs: seq<Byte>)
    ensures Valid(vs + ChecksumOf(vs))
  {
    OneIsRegister();
    hide Run, Xor, Register, Digits;
    RunRegister(1, vs);
    RunAppend(1, vs, SIX_ZEROS);
    SteerReaches(Run(1, vs), 1);
    RunAppend(1, vs, ChecksumOf(vs));
  }

  /** A word has exactly one valid checksum. */
  lemma ChecksumUnique(vs: seq<Byte>, c: seq<Byte>)
    requires Symbols(c) && |c| == 6
    ensures Valid(vs + c) <==> c == ChecksumOf(vs)
  {
    ChecksumValid(vs);
    hide Run, ChecksumOf;
    RunAppend(1, vs, c);
    RunAppend(1, vs, ChecksumOf(vs));
    if Valid(vs + c) {
      WindowInjective(Run(1, vs), c, ChecksumOf(vs));
    }
  }

  /** The bound of six is exact: inside any window of seven symbols, some change goes unnoticed. */
  lemma SevenCanEscape(before: seq<Byte>, a: seq<Byte>, after: seq<Byte>) returns (b: seq<Byte>)
    requires |a| == 7
    requires Valid(before + a + after)
    ensures |b| == 7 && Symbols(b) && b != a
    ensures Valid(before + b + after)
  {
    OneIsRegister();
    hide Run, Steer, Register;
    var first: Byte := if a[0] == 0 then 1 else 0;
    RunRegister(1, before);
    var c := Run(1, before);
    RunRegister(c, a);
    RunRegister(c, [first]);
    var d := Run(c, [first]);
    b := [first] + Steer(d, Run(c, a));
    assert b[0] != a[0];
    SteerReaches(d, Run(c, a));
    RunAppend(c, [first], Steer(d, Run(c, a)));
    RunThree(before, a, after);
    RunThree(before, b, after);
  }
}
