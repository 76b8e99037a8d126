/**
 Big-endian bit strings: the reference against which the regrouping loop of the Bech32 codec
 and base64 are stated. A sequence of w-bit values is `Unpack`ed into one unbounded bit string,
 and a bit string is `Pack`ed into groups of another width, leaving a `Rest`.
 */
module BitStrings {

  type Byte = v: int | 0 <= v < 0x100

  function Pow2(n: nat): (p: nat)
    ensures p >= 1
  {
    if n == 0 then 1 else 2 * Pow2(n - 1)
  }

  /** The w low bits of v, most significant first. */
  function BitsOf(v: nat, w: nat): (b: seq<bool>)
    ensures |b| == w
  {
    if w == 0 then [] else BitsOf(v / 2, w - 1) + [v % 2 == 1]
  }

  function ValueOf(b: seq<bool>): nat
  {
    if b == [] then 0 else 2 * ValueOf(b[..|b| - 1]) + if b[|b| - 1] then 1 else 0
  }

  lemma {:induction false} ValueOfBits(v: nat, w: nat)
    requires v < Pow2(w)
    ensures ValueOf(BitsOf(v, w)) == v
  {
    if w > 0 {
      ValueOfBits(v / 2, w - 1);
      assert BitsOf(v, w)[..w - 1] == BitsOf(v / 2, w - 1);
    }
  }

  lemma {:induction false} BitsOfValue(b: seq<bool>)
    ensures ValueOf(b) < Pow2(|b|)
    ensures BitsOf(ValueOf(b), |b|) == b
  {
    if b != [] {
      BitsOfValue(b[..|b| - 1]);
    }
  }

  lemma ConcatAssoc<T>(a: seq<T>, b: seq<T>, c: seq<T>)
    ensures (a + b) + c == a + (b + c)
  {}

  /** The value of a group of at most eight bits. */
  function ByteOf(b: seq<bool>): (v: Byte)
    requires |b| <= 8
    ensures v == ValueOf(b)
  {
    BitsOfValue(b);
    Pow2Monotonic(|b|, 8);
    Pow2Of8();
    ValueOf(b)
  }

  lemma {:induction false} Pow2Monotonic(m: nat, n: nat)
    requires m <= n
    ensures Pow2(m) <= Pow2(n)
  {
    if m < n { Pow2Monotonic(m, n - 1); }
  }

  lemma Pow2Of8()
    ensures Pow2(5) == 32 && Pow2(6) == 64 && Pow2(8) == 0x100
  {
    assert Pow2(3) == 8;
    assert Pow2(5) == 32;
    assert Pow2(7) == 128;
  }

  /** Every element fits in w bits. */
  predicate Fits(data: seq<Byte>, w: nat) {
    forall i :: 0 <= i < |data| ==> data[i] < Pow2(w)
  }

  predicate AllFalse(b: seq<bool>) {
    forall i :: 0 <= i < |b| ==> !b[i]
  }

  function Zeros(n: nat): (b: seq<bool>)
    ensures |b| == n && AllFalse(b)
  {
    seq(n, _ => false)
  }

  function Unpack(data: seq<Byte>, w: nat): seq<bool>
  {
    if data == [] then [] else BitsOf(data[0], w) + Unpack(data[1..], w)
  }

  /** The whole groups of w bits, in order. */
  function Pack(b: seq<bool>, w: nat): seq<Byte>
    requires 1 <= w <= 8
  {
    if |b| < w then [] else [ByteOf(b[..w])] + Pack(b[w..], w)
  }

  /** The bits left over after the whole groups. */
  function Rest(b: seq<bool>, w: nat): (r: seq<bool>)
    requires 1 <= w <= 8
    ensures |r| < w
  {
    if |b| < w then b else Rest(b[w..], w)
  }

  lemma {:induction false} UnpackPack(b: seq<bool>, w: nat)
    requires 1 <= w <= 8
    ensures Unpack(Pack(b, w), w) + Rest(b, w) == b
    ensures Fits(Pack(b, w), w)
  {
    if |b| >= w {
      UnpackPack(b[w..], w);
      assert b == b[..w] + b[w..];
      UnpackPackStep(b[..w], b[w..], w);
    }
  }

  lemma UnpackPackStep(first: seq<bool>, others: seq<bool>, w: nat)
    requires 1 <= w <= 8 && |first| == w
    requires Unpack(Pack(others, w), w) + Rest(others, w) == others && Fits(Pack(others, w), w)
    ensures Unpack(Pack(first + others, w), w) + Rest(first + others, w) == first + others
    ensures Fits(Pack(first + others, w), w)
  {
    hide BitsOf, ValueOf, Fits, Unpack;
    PackStep(first, others, w);
    hide Pack, Rest;
    BitsOfValue(first);
    UnpackCons(ByteOf(first), Pack(others, w), w);
    ConcatAssoc(first, Unpack(Pack(others, w), w), Rest(others, w));
  }

  lemma UnpackCons(v: Byte, data: seq<Byte>, w: nat)
    ensures Fits([v] + data, w) <==> v < Pow2(w) && Fits(data, w)
    ensures Unpack([v] + data, w) == BitsOf(v, w) + Unpack(data, w)
  {
    var d := [v] + data;
    assert d[0] == v && d[1..] == data;
    assert forall i :: 0 <= i < |data| ==> data[i] == d[i + 1];
  }

  /** Packing is the only way to cut a bit string into whole groups and a short rest. */
  lemma {:induction false} PackUnpack(data: seq<Byte>, w: nat, rest: seq<bool>)
    requires 1 <= w <= 8 && Fits(data, w) && |rest| < w
    ensures Pack(Unpack(data, w) + rest, w) == data
    ensures Rest(Unpack(data, w) + rest, w) == rest
  {
    if data == [] {
      assert Unpack(data, w) + rest == rest;
    } else {
      PackUnpack(data[1..], w, rest);
      ValueOfBits(data[0], w);
      PackStep(BitsOf(data[0], w), Unpack(data[1..], w) + rest, w);
      assert Unpack(data, w) + rest == BitsOf(data[0], w) + (Unpack(data[1..], w) + rest);
    }
  }

  lemma PackUnpackWhole(data: seq<Byte>, w: nat)
    requires 1 <= w <= 8 && Fits(data, w)
    ensures Pack(Unpack(data, w), w) == data
    ensures Rest(Unpack(data, w), w) == []
  {
    PackUnpack(data, w, []);
    assert Unpack(data, w) + [] == Unpack(data, w);
  }

  lemma PackStep(first: seq<bool>, others: seq<bool>, w: nat)
    requires 1 <= w <= 8 && |first| == w
    ensures Pack(first + others, w) == [ByteOf(first)] + Pack(others, w)
    ensures Rest(first + others, w) == Rest(others, w)
  {
    hide BitsOf, ValueOf;
    var b := first + others;
    assert b[..w] == first && b[w..] == others;
  }

  lemma {:induction false} UnpackAppend(a: seq<Byte>, b: seq<Byte>, w: nat)
    ensures Unpack(a + b, w) == Unpack(a, w) + Unpack(b, w)
  {
    if a == [] {
      assert a + b == b && Unpack(a, w) + Unpack(b, w) == Unpack(b, w);
    } else {
      UnpackAppend(a[1..], b, w);
      assert a + b == [a[0]] + (a[1..] + b);
      UnpackCons(a[0], a[1..] + b, w);
      ConcatAssoc(BitsOf(a[0], w), Unpack(a[1..], w), Unpack(b, w));
    }
  }

  lemma UnpackSnoc(a: seq<Byte>, v: Byte, w: nat)
    ensures Fits(a + [v], w) <==> Fits(a, w) && v < Pow2(w)
    ensures Unpack(a + [v], w) == Unpack(a, w) + BitsOf(v, w)
  {
    UnpackAppend(a, [v], w);
    assert [v][1..] == [];
    var d := a + [v];
    assert d[|a|] == v;
    assert forall i :: 0 <= i < |a| ==> a[i] == d[i];
  }

  // How BitsOf behaves under the word operations of the regrouping loop.

  /** v shifted right by n: n halvings. */
  function Shr(v: nat, n: nat): nat
  {
    if n == 0 then v else Shr(v / 2, n - 1)
  }

  /** Shifting right by n drops the low n bits. */
  lemma {:induction false} BitsOfSplit(a: nat, t: nat, n: nat)
    ensures BitsOf(a, t + n) == BitsOf(Shr(a, n), t) + BitsOf(a, n)
  {
    if n > 0 {
      BitsOfSplit(a / 2, t, n - 1);
    }
  }

  /** A short value has only zeros above its own bits. */
  lemma ShortValueBits(v: nat, n: nat, f: nat)
    requires v < Pow2(f)
    ensures BitsOf(v, n + f) == Zeros(n) + BitsOf(v, f)
  {
    BitsOfSplit(v, n, f);
    ShrZero(v, f);
    ZeroBits(n);
  }

  lemma {:induction false} ShrZero(v: nat, n: nat)
    ensures Shr(v, n) == 0 <==> v < Pow2(n)
  {
    if n > 0 { ShrZero(v / 2, n - 1); }
  }

  lemma {:induction false} ZeroBits(n: nat)
    ensures BitsOf(0, n) == Zeros(n)
  {
    if n > 0 { ZeroBits(n - 1); }
  }

  /** Bits from the k-th up do not matter to the low n <= k, so a register may discard them. */
  lemma {:induction false} BitsOfHigh(q: nat, r: nat, k: nat, n: nat)
    requires n <= k
    ensures BitsOf(q * Pow2(k) + r, n) == BitsOf(r, n)
  {
    if n > 0 {
      var x := q * Pow2(k) + r;
      assert q * Pow2(k) == 2 * (q * Pow2(k - 1));
      assert x / 2 == q * Pow2(k - 1) + r / 2 && x % 2 == r % 2;
      BitsOfHigh(q, r / 2, k - 1, n - 1);
    }
  }

  lemma {:induction false} BitsOfZero(v: nat, w: nat)
    requires v < Pow2(w)
    ensures AllFalse(BitsOf(v, w)) <==> v == 0
  {
    if w > 0 {
      BitsOfZero(v / 2, w - 1);
      var b := BitsOf(v, w);
      assert b[..w - 1] == BitsOf(v / 2, w - 1) && b[w - 1] == (v % 2 == 1);
    }
  }
}
