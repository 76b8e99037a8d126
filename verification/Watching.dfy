/**
 typescript/src/restart.ts, BundleWatch: "at least one change happened" signals with a memory of one.
 A promise is known by its ticket, the number of calls of next made before it.
 */
module Watching {
  import opened Wrappers
  import opened Promises

  datatype Watch = Watch(pending: bool, closed: bool, waiters: seq<nat>, calls: nat, settled: map<nat, bool>)

  datatype Op = SignalChange | Close | Next

  const FRESH := Watch(false, false, [], 0, map[])

  function Step(w: Watch, op: Op): Watch
  {
    match op
    case SignalChange =>
      if w.closed || w.pending then w
      else if w.waiters != [] then w.(waiters := w.waiters[1..], settled := w.settled[w.waiters[0] := true])
      else w.(pending := true)
    case Close =>
      if w.closed then w
      else w.(closed := true, waiters := [], settled := Settle(w.settled, w.waiters, false))
    case Next =>
      var w' := w.(calls := w.calls + 1);
      if w.pending then w'.(pending := false, settled := w.settled[w.calls := true])
      else if w.closed then w'.(settled := w.settled[w.calls := false])
      else w'.(waiters := w.waiters + [w.calls])
  }

  function Run(ops: seq<Op>): Watch
  {
    if ops == [] then FRESH else Step(Run(ops[..|ops| - 1]), ops[|ops| - 1])
  }

  class BundleWatch {
    var pending: bool
    var closed: bool
    var waiters: seq<nat>
    var calls: nat
    var settled: map<nat, bool>

    function View(): Watch
      reads this
    {
      Watch(pending, closed, waiters, calls, settled)
    }

    constructor ()
      ensures View() == FRESH
    {
      pending, closed, waiters, calls, settled := false, false, [], 0, map[];
    }

    method SignalChange()
      modifies this
      ensures View() == Step(old(View()), Op.SignalChange)
    {
      if closed || pending { return; }
      if waiters != [] {
        settled := settled[waiters[0] := true];
        waiters := waiters[1..];
      } else {
        pending := true;
      }
    }

    method Close()
      modifies this
      ensures View() == Step(old(View()), Op.Close)
    {
      if closed { return; }
      closed := true;
      while |waiters| > 0
        invariant Settle(settled, waiters, false) == Settle(old(settled), old(waiters), false)
        invariant closed && pending == old(pending) && calls == old(calls)
      {
        settled := settled[waiters[0] := false];
        waiters := waiters[1..];
      }
    }

    method Next() returns (ticket: nat)
      modifies this
      ensures ticket == old(calls)
      ensures View() == Step(old(View()), Op.Next)
    {
      ticket := calls;
      calls := calls + 1;
      if pending {
        pending := false;
        settled := settled[ticket := true];
      } else if closed {
        settled := settled[ticket := false];
      } else {
        waiters := waiters + [ticket];
      }
    }
  }

  // What a run amounts to: changes accepted, whether closed, calls of next.

  datatype Tally = Tally(accepted: nat, closed: bool, calls: nat)

  /** A change is accepted unless one more than the calls so far has been accepted already. */
  function Count(t: Tally, op: Op): Tally
  {
    match op
    case SignalChange => if t.closed || t.accepted > t.calls then t else t.(accepted := t.accepted + 1)
    case Close => t.(closed := true)
    case Next => t.(calls := t.calls + 1)
  }

  function Tallied(ops: seq<Op>): Tally
  {
    if ops == [] then Tally(0, false, 0) else Count(Tallied(ops[..|ops| - 1]), ops[|ops| - 1])
  }

  /** What the k-th call is given: true as long as there are changes accepted, then false once closed. */
  function Answer(t: Tally, k: nat): Option<bool>
  {
    if k < t.accepted then Some(true) else if t.closed then Some(false) else None
  }

  /** The whole state, as a function of the tally alone. */
  function Ideal(t: Tally): Watch
  {
    Watch(t.accepted > t.calls, t.closed, if t.closed then [] else Tickets(t.accepted, t.calls), t.calls,
          map k: nat | k < t.calls && Answer(t, k).Some? :: Answer(t, k).value)
  }

  lemma SameWatch(w: Watch, w': Watch)
    requires w.pending == w'.pending && w.closed == w'.closed && w.waiters == w'.waiters && w.calls == w'.calls
    requires forall k: nat :: k in w.settled <==> k in w'.settled
    requires forall k: nat :: k in w.settled ==> w.settled[k] == w'.settled[k]
    ensures w == w'
  {
    assert w.settled == w'.settled;
  }

  lemma ChangeFollows(t: Tally)
    requires t.accepted <= t.calls + 1
    ensures Step(Ideal(t), SignalChange) == Ideal(Count(t, SignalChange))
  {
    var w, w' := Step(Ideal(t), SignalChange), Ideal(Count(t, SignalChange));
    assert w.waiters == w'.waiters;
    SameWatch(w, w');
  }

  lemma CloseFollows(t: Tally)
    requires t.accepted <= t.calls + 1
    ensures Step(Ideal(t), Close) == Ideal(Count(t, Close))
  {
    hide Settle;
    var w, w' := Step(Ideal(t), Close), Ideal(Count(t, Close));
    if !t.closed {
      forall k: nat
        ensures (k in w.settled <==> k in w'.settled) && (k in w.settled ==> w.settled[k] == w'.settled[k])
      {
        SettleAt(Ideal(t).settled, t.accepted, t.calls, false, k);
      }
    }
    SameWatch(w, w');
  }

  lemma NextFollows(t: Tally)
    requires t.accepted <= t.calls + 1
    ensures Step(Ideal(t), Next) == Ideal(Count(t, Next))
  {
    var w, w' := Step(Ideal(t), Next), Ideal(Count(t, Next));
    assert w.waiters == w'.waiters;
    SameWatch(w, w');
  }

  lemma OpFollows(t: Tally, op: Op)
    requires t.accepted <= t.calls + 1
    ensures Step(Ideal(t), op) == Ideal(Count(t, op))
    ensures Count(t, op).accepted <= Count(t, op).calls + 1
  {
    hide Step, Ideal;
    match op
    case SignalChange => ChangeFollows(t);
    case Close => CloseFollows(t);
    case Next => NextFollows(t);
  }

  /** Whatever the order of changes, calls and closing, the state is the ideal one. */
  lemma {:induction false} RunIsIdeal(ops: seq<Op>)
    ensures Run(ops) == Ideal(Tallied(ops)) && Tallied(ops).accepted <= Tallied(ops).calls + 1
  {
    assert Ideal(Tally(0, false, 0)).settled == map[];
    assert Ideal(Tally(0, false, 0)) == FRESH;
    hide Step, Ideal, Count;
    if ops != [] {
      RunIsIdeal(ops[..|ops| - 1]);
      OpFollows(Tallied(ops[..|ops| - 1]), ops[|ops| - 1]);
    }
  }

  function Trues(settled: map<nat, bool>): set<nat>
  {
    set k | k in settled && settled[k]
  }

  /** Accepted changes are exactly the true results and the pending slot, and never more than the changes. */
  lemma Conservation(ops: seq<Op>)
    ensures var w := Run(ops);
            && Tallied(ops).accepted == |Trues(w.settled)| + (if w.pending then 1 else 0)
            && Tallied(ops).accepted <= Changes(ops)
            && (forall k :: k in w.settled && !w.settled[k] ==> w.closed)
            && (w.pending || w.closed ==> w.waiters == [])
            && (w.closed ==> forall k: nat :: k < w.calls ==> k in w.settled)
  {
    hide Run, Tallied, Trues;
    RunIsIdeal(ops);
    AcceptedAreChanges(ops);
    TrueAnswers(Tallied(ops));
  }

  lemma TrueAnswers(t: Tally)
    ensures |Trues(Ideal(t).settled)| == if t.accepted <= t.calls then t.accepted else t.calls
  {
    var least := if t.accepted <= t.calls then t.accepted else t.calls;
    var trues, settled := Trues(Ideal(t).settled), Ideal(t).settled;
    forall k: nat ensures k in trues <==> k in Below(least) {
      assert k in settled && settled[k] <==> k < least;
    }
    assert trues == Below(least);
  }

  function Below(n: nat): (r: set<nat>)
    ensures |r| == n && forall k :: k in r <==> 0 <= k < n
  {
    if n == 0 then {} else Below(n - 1) + {n - 1}
  }

  function Changes(ops: seq<Op>): nat
  {
    if ops == [] then 0 else Changes(ops[..|ops| - 1]) + if ops[|ops| - 1].SignalChange? then 1 else 0
  }

  lemma {:induction false} AcceptedAreChanges(ops: seq<Op>)
    ensures Tallied(ops).accepted <= Changes(ops)
  {
    if ops != [] {
      AcceptedAreChanges(ops[..|ops| - 1]);
    }
  }

  // No change is lost.

  lemma {:induction false} TallyGrows(ops: seq<Op>, more: seq<Op>)
    ensures Tallied(ops + more).accepted >= Tallied(ops).accepted
    ensures Tallied(ops + more).calls >= Tallied(ops).calls
    decreases |more|
  {
    if more == [] {
      assert ops + more == ops;
    } else {
      assert (ops + more)[..|ops + more| - 1] == ops + more[..|more| - 1];
      TallyGrows(ops, more[..|more| - 1]);
    }
  }

  /**
   A change signalled before closing answers, with true, a call that was not answered yet and is at
   the latest the next one to be made. Until that call is made it stays pending, closing or not.
   */
  lemma NoChangeLost(before: seq<Op>, after: seq<Op>) returns (ticket: nat)
    requires !Run(before).closed
    ensures ticket !in Run(before).settled && ticket <= Run(before).calls
    ensures var w := Run(before + [SignalChange] + after);
            if ticket < w.calls then ticket in w.settled && w.settled[ticket] else w.pending
  {
    hide Run, Step, Tallied;
    var signalled := before + [SignalChange];
    RunIsIdeal(before);
    assert Tallied(signalled) == Count(Tallied(before), SignalChange) by { LastCounts(before, SignalChange); }
    ticket := Tallied(signalled).accepted - 1;
    TallyGrows(signalled, after);
    RunIsIdeal(signalled + after);
  }

  lemma LastCounts(ops: seq<Op>, op: Op)
    ensures Tallied(ops + [op]) == Count(Tallied(ops), op)
    ensures Run(ops + [op]) == Step(Run(ops), op)
  {
    assert (ops + [op])[..|ops|] == ops;
  }
}
