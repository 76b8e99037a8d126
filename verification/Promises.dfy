/**
 Promises by ticket, the number of calls that asked for one before it, and the settling of waiters
 in the order of an array emptied from the front (async-mailbox.ts and restart.ts under typescript/src).
 */
module Promises {
  function Settle<V>(settled: map<nat, V>, tickets: seq<nat>, v: V): map<nat, V>
    decreases tickets
  {
    if tickets == [] then settled else Settle(settled[tickets[0] := v], tickets[1..], v)
  }

  function Tickets(from: nat, upto: nat): (r: seq<nat>)
    ensures |r| == if from < upto then upto - from else 0
    ensures forall i :: 0 <= i < |r| ==> r[i] == from + i
    decreases upto - from
  {
    if from < upto then [from] + Tickets(from + 1, upto) else []
  }

  lemma {:induction false} SettleAt<V>(settled: map<nat, V>, from: nat, upto: nat, v: V, k: nat)
    ensures var r := Settle(settled, Tickets(from, upto), v);
            if from <= k < upto then k in r && r[k] == v
            else (k in r <==> k in settled) && (k in r ==> r[k] == settled[k])
    decreases upto - from
  {
    if from < upto {
      assert Tickets(from, upto)[1..] == Tickets(from + 1, upto);
      SettleAt(settled[from := v], from + 1, upto, v, k);
    }
  }
}
