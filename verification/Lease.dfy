/**
 The lease of the restart lock in ideal time, in milliseconds from ACQUIRED: a heartbeat every quarter
 of the ttl (typescript/src/restart.ts), and the server's rule for a heartbeat it receives, expiry to
 now plus ttl (go/gen/signet/v1/secrets.pb.go).
 */
module Lease {
  /** Math.max(1, Math.floor(ttlSecs * 1000 / 4)). */
  function Interval(ttlSecs: int): int
  {
    var quarter := ttlSecs * 1000 / 4;
    if quarter < 1 then 1 else quarter
  }

  /** Math.max(1, Math.trunc(ttlSeconds)). */
  function WholeSeconds(ttl: real): int
  {
    var whole := if ttl >= 0.0 then ttl.Floor else -((-ttl).Floor);
    if whole < 1 then 1 else whole
  }

  /** The expiry after the first k heartbeats, of which those in delivered arrived. */
  ghost function Expiry(ttlSecs: int, delivered: nat -> bool, k: nat): int
  {
    if k == 0 then ttlSecs * 1000
    else if delivered(k) then Due(ttlSecs, k) + ttlSecs * 1000
    else Expiry(ttlSecs, delivered, k - 1)
  }

  /** When the k-th heartbeat is sent; the 0-th stands for ACQUIRED. */
  function Due(ttlSecs: int, k: nat): int
  {
    k * Interval(ttlSecs)
  }

  /** A heartbeat is sent no later than the expiry of that moment: the server has not freed the lock. */
  ghost predicate InTime(ttlSecs: int, delivered: nat -> bool, k: nat)
    requires k > 0
  {
    Due(ttlSecs, k) <= Expiry(ttlSecs, delivered, k - 1)
  }

  ghost predicate FourLost(delivered: nat -> bool, k: nat)
  {
    k > 0 && !delivered(k) && !delivered(k + 1) && !delivered(k + 2) && !delivered(k + 3)
  }

  /** The whole seconds of the ttl, and one for less. */
  lemma WholeSecondsExactly(ttl: real)
    ensures WholeSeconds(ttl) >= 1
    ensures if ttl < 1.0 then WholeSeconds(ttl) == 1
            else WholeSeconds(ttl) as real <= ttl < WholeSeconds(ttl) as real + 1.0
  {}

  /** Four intervals are the ttl exactly. */
  lemma QuarterExactly(ttl: real)
    ensures var s := WholeSeconds(ttl); s >= 1 && Interval(s) * 4 == s * 1000
    ensures ttl >= 1.0 ==> WholeSeconds(ttl) as real <= ttl < WholeSeconds(ttl) as real + 1.0
    ensures ttl < 1.0 ==> WholeSeconds(ttl) == 1
  {
    hide WholeSeconds;
    WholeSecondsExactly(ttl);
  }

  /** The number of heartbeats since the last one that arrived, ACQUIRED being the 0-th. */
  ghost function SinceArrival(delivered: nat -> bool, k: nat): nat
  {
    if k == 0 || delivered(k) then 0 else SinceArrival(delivered, k - 1) + 1
  }

  lemma {:induction false} ExpiryBySilence(ttlSecs: int, delivered: nat -> bool, k: nat)
    requires ttlSecs >= 1
    ensures SinceArrival(delivered, k) <= k
    ensures Expiry(ttlSecs, delivered, k) == Due(ttlSecs, k - SinceArrival(delivered, k) + 4)
  {
    if k > 0 && !delivered(k) {
      ExpiryBySilence(ttlSecs, delivered, k - 1);
    }
  }

  lemma Product(a: nat, b: nat, step: int)
    requires step >= 1
    ensures a * step <= b * step <==> a <= b
  {}

  lemma FourthSilence(delivered: nat -> bool, k: nat)
    ensures SinceArrival(delivered, k) >= 4 <==> k >= 4 && FourLost(delivered, k - 3)
  {
    if k >= 4 {
      assert SinceArrival(delivered, k - 4) >= 0;
      assert SinceArrival(delivered, k - 3) == if delivered(k - 3) then 0 else SinceArrival(delivered, k - 4) + 1;
      assert SinceArrival(delivered, k - 2) == if delivered(k - 2) then 0 else SinceArrival(delivered, k - 3) + 1;
      assert SinceArrival(delivered, k - 1) == if delivered(k - 1) then 0 else SinceArrival(delivered, k - 2) + 1;
    } else {
      ExpiryBySilence(1, delivered, k);
    }
  }

  /** Every heartbeat of an unbounded run is in time exactly when no four in a row are lost. */
  lemma LeaseContinuity(ttlSecs: int, delivered: nat -> bool)
    requires ttlSecs >= 1
    ensures (forall k: nat :: k > 0 ==> InTime(ttlSecs, delivered, k)) <==> !exists k: nat :: FourLost(delivered, k)
  {
    forall k: nat | k > 0 ensures InTime(ttlSecs, delivered, k) <==> !(k >= 5 && FourLost(delivered, k - 4)) {
      ExpiryBySilence(ttlSecs, delivered, k - 1);
      Product(k, k - 1 - SinceArrival(delivered, k - 1) + 4, Interval(ttlSecs));
      FourthSilence(delivered, k - 1);
    }
    if k: nat :| FourLost(delivered, k) {
      assert !InTime(ttlSecs, delivered, k + 4);
    }
  }
}
