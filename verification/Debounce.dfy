/**
 typescript/src/restart.ts, debounceUntilQuiet, on a BundleWatch and in ideal time: a callback runs at the
 instant of its event. An event at the very instant a timer fires says which of the two is first, and an
 event at the instant of the one before says whether it still comes before that one's callbacks.
 */
module Debounce {
  import opened Promises
  import opened Watching

  datatype Kind = Change | Abort | CloseWatch

  datatype Event = Event(at: real, kind: Kind, beforeTimer: bool, early: bool)

  datatype Outcome = Quiet(at: real) | Thrown(at: real)

  /** The event comes before a timer that was started at the given instant. */
  predicate Beats(start: real, debounce: real, e: Event)
  {
    e.at < start + debounce || (e.at == start + debounce && e.beforeTimer)
  }

  predicate InOrder(start: real, events: seq<Event>)
  {
    && (forall i :: 0 <= i < |events| ==> start <= events[i].at)
    && (forall i, j :: 0 <= i < j < |events| ==> events[i].at <= events[j].at)
    && (forall i :: 0 < i < |events| && events[i].early ==> events[i].at == events[i - 1].at)
  }

  /** The start of the i-th gap: the beginning of the wait, then each event. */
  function Instant(start: real, events: seq<Event>, i: nat): real
    requires i <= |events|
  {
    if i == 0 then start else events[i - 1].at
  }

  /** The time from there to the event. */
  function Gap(start: real, events: seq<Event>, i: nat): real
    requires i < |events|
  {
    events[i].at - Instant(start, events, i)
  }

  /** The j-th event is a change that ends a gap before its timer. */
  predicate Restarts(start: real, debounce: real, events: seq<Event>, j: nat)
    requires j < |events|
  {
    events[j].kind.Change? && Beats(Instant(start, events, j), debounce, events[j])
  }

  /** The k-th gap is the first that outlasts its timer, and only changes came before it. */
  predicate FirstQuiet(start: real, debounce: real, events: seq<Event>, k: nat)
  {
    && k <= |events|
    && (forall j :: 0 <= j < k ==> Restarts(start, debounce, events, j))
    && (k < |events| ==> !Beats(Instant(start, events, k), debounce, events[k]))
  }

  /** The k-th event is an abort or a close, before any gap was long enough. */
  predicate FirstStop(start: real, debounce: real, events: seq<Event>, k: nat)
  {
    && k < |events|
    && (forall j :: 0 <= j < k ==> Restarts(start, debounce, events, j))
    && !events[k].kind.Change?
    && Beats(Instant(start, events, k), debounce, events[k])
  }

  /** The wait ends in one way only. */
  lemma OnlyOne(start: real, debounce: real, events: seq<Event>, k: nat)
    requires FirstQuiet(start, debounce, events, k) || FirstStop(start, debounce, events, k)
    ensures forall k': nat :: FirstQuiet(start, debounce, events, k') ==> k' == k
    ensures forall k': nat :: FirstStop(start, debounce, events, k') ==> k' == k
  {
    forall k': nat | FirstQuiet(start, debounce, events, k') || FirstStop(start, debounce, events, k') ensures k' == k {
      assert k' < k ==> Restarts(start, debounce, events, k');
      assert k < k' ==> Restarts(start, debounce, events, k);
    }
  }

  /** A normal return means nothing but changes before it, and a silent gap of the full length. */
  lemma QuietMeansQuiet(start: real, debounce: real, events: seq<Event>, k: nat, j: nat)
    requires InOrder(start, events) && FirstQuiet(start, debounce, events, k) && j < |events|
    ensures var c := Instant(start, events, k);
            && (events[j].at < c + debounce ==> events[j].kind.Change? && events[j].at <= c)
            && (j < k ==> Gap(start, events, j) <= debounce)
  {
    if j < k {
      assert Restarts(start, debounce, events, j);
      assert events[j].at <= events[k - 1].at;
    } else {
      assert events[k].at <= events[j].at;
    }
  }

  /** Without a tie the wait ends after the first gap longer than debounce, all earlier ones being shorter. */
  lemma StrictGaps(start: real, debounce: real, events: seq<Event>, k: nat)
    requires InOrder(start, events) && k <= |events|
    requires forall j :: 0 <= j < |events| ==> Gap(start, events, j) != debounce
    ensures FirstQuiet(start, debounce, events, k) <==>
            && (forall j :: 0 <= j < k ==> events[j].kind.Change? && Gap(start, events, j) < debounce)
            && (k < |events| ==> Gap(start, events, k) > debounce)
  {
    forall j | 0 <= j < |events|
      ensures Beats(Instant(start, events, j), debounce, events[j]) <==> Gap(start, events, j) < debounce
    {}
    if FirstQuiet(start, debounce, events, k) {
      forall j | 0 <= j < k ensures events[j].kind.Change? && Gap(start, events, j) < debounce {
        assert Restarts(start, debounce, events, j);
      }
    } else if forall j :: 0 <= j < k ==> events[j].kind.Change? && Gap(start, events, j) < debounce {
      assert forall j :: 0 <= j < k ==> Restarts(start, debounce, events, j);
    }
  }

  /** The gap ends before its timer: it is shorter, or as long and its event comes first. */
  predicate Early(start: real, debounce: real, events: seq<Event>, j: nat)
    requires j < |events|
  {
    Gap(start, events, j) < debounce || (Gap(start, events, j) == debounce && events[j].beforeTimer)
  }

  /** Ties included: the wait ends at the first gap that does not end before its timer, or at a stop before it. */
  lemma WaitExactly(start: real, debounce: real, events: seq<Event>, k: nat)
    requires k <= |events|
    ensures FirstQuiet(start, debounce, events, k) <==>
            && (forall j :: 0 <= j < k ==> events[j].kind.Change? && Early(start, debounce, events, j))
            && (k < |events| ==> !Early(start, debounce, events, k))
    ensures FirstStop(start, debounce, events, k) <==>
            && (forall j :: 0 <= j < k ==> events[j].kind.Change? && Early(start, debounce, events, j))
            && k < |events| && (events[k].kind.Abort? || events[k].kind.CloseWatch?)
            && Early(start, debounce, events, k)
  {
    forall j | 0 <= j < |events|
      ensures Beats(Instant(start, events, j), debounce, events[j]) <==> Early(start, debounce, events, j)
      ensures Restarts(start, debounce, events, j) <==> events[j].kind.Change? && Early(start, debounce, events, j)
    {}
  }

  // The code.

  /** Nobody else waits, and the next ticket is new. */
  predicate Free(w: Watch)
  {
    w.waiters == [] && forall k :: k in w.settled ==> k < w.calls
  }

  lemma AnsweredIsFree(ops: seq<Op>)
    requires Run(ops).waiters == []
    ensures Free(Run(ops))
  {
    hide Run;
    RunIsIdeal(ops);
  }

  /** The ticket is answered, or it is the only one waited for. */
  predicate Asked(w: Watch, ticket: nat)
  {
    && ticket < w.calls
    && (forall k :: k in w.settled ==> k < w.calls)
    && (if ticket in w.settled then w.waiters == [] && (w.settled[ticket] || w.closed)
        else w.waiters == [ticket] && !w.pending && !w.closed)
  }

  lemma AskAgain(w: Watch)
    requires Free(w)
    ensures Asked(Step(w, Next), w.calls) && Step(w, Next).closed == w.closed
    ensures !Step(w, Next).pending
    ensures w.calls in Step(w, Next).settled <==> w.pending || w.closed
    ensures w.pending || w.closed ==> Step(w, Next).settled[w.calls] == w.pending
  {}

  /** What an event does to the watch; an abort does nothing to it. */
  function Happens(w: Watch, e: Event): Watch
  {
    match e.kind
    case Change => Step(w, SignalChange)
    case CloseWatch => Step(w, Close)
    case Abort => w
  }

  lemma FirstHappens(w: Watch, ticket: nat, e: Event)
    requires Asked(w, ticket) && ticket !in w.settled
    ensures var w' := Happens(w, e);
            && Asked(w', ticket) && w'.closed == e.kind.CloseWatch?
            && (ticket in w'.settled <==> !e.kind.Abort?)
            && (!e.kind.Abort? ==> w'.settled[ticket] == e.kind.Change?)
  {
    assert [ticket][1..] == [] && Settle(w.settled[ticket := false], [], false) == w.settled[ticket := false];
  }

  lemma EarlyHappens(w: Watch, ticket: nat, e: Event)
    requires Asked(w, ticket)
    ensures var w' := Happens(w, e);
            && Asked(w', ticket) && w'.closed == (w.closed || e.kind.CloseWatch?)
            && (ticket in w.settled ==> ticket in w'.settled && w'.settled[ticket] == w.settled[ticket])
  {
    assert [ticket][1..] == [] && Settle(w.settled[ticket := false], [], false) == w.settled[ticket := false];
  }

  method Deliver(watch: BundleWatch, e: Event)
    modifies watch
    ensures watch.View() == Happens(old(watch.View()), e)
  {
    match e.kind {
      case Change => watch.SignalChange();
      case CloseWatch => watch.Close();
      case Abort =>
    }
  }

  /** The first of the events from i on, up to n, that is not a change; n when there is none. */
  predicate StopsAt(events: seq<Event>, i: nat, n: nat, k: nat)
  {
    && i <= k <= n <= |events|
    && (forall j :: i <= j < k ==> events[j].kind.Change?)
    && (k < n ==> !events[k].kind.Change?)
  }

  /** An event and the early ones after it: all at one instant, before any callback runs. */
  method Batch(events: seq<Event>, i: nat, watch: BundleWatch, ticket: nat)
    returns (n: nat, aborted: bool, ghost k: nat)
    requires i < |events| && Asked(watch.View(), ticket) && ticket !in watch.settled
    requires forall j :: 0 < j < |events| && events[j].early ==> events[j].at == events[j - 1].at
    modifies watch
    ensures i < n <= |events| && StopsAt(events, i, n, k)
    ensures forall j :: i <= j < n ==> events[j].at == events[i].at
    ensures Asked(watch.View(), ticket)
    ensures aborted || watch.closed <==> k < n
    ensures !events[i].kind.Abort? ==> ticket in watch.settled && watch.settled[ticket] == events[i].kind.Change?
    ensures events[i].kind.Abort? ==> aborted
  {
    hide Step, Happens;
    FirstHappens(watch.View(), ticket, events[i]);
    Deliver(watch, events[i]);
    aborted := events[i].kind.Abort?;
    n := i + 1;
    k := if events[i].kind.Change? then n else i;
    while n < |events| && events[n].early
      invariant i < n <= |events| && StopsAt(events, i, n, k)
      invariant forall j :: i <= j < n ==> events[j].at == events[i].at
      invariant Asked(watch.View(), ticket)
      invariant aborted || watch.closed <==> k < n
      invariant !events[i].kind.Abort? ==> ticket in watch.settled && watch.settled[ticket] == events[i].kind.Change?
      invariant events[i].kind.Abort? ==> aborted
    {
      assert events[n].at == events[n - 1].at;
      EarlyHappens(watch.View(), ticket, events[n]);
      Deliver(watch, events[n]);
      aborted := aborted || events[n].kind.Abort?;
      if k == n && events[n].kind.Change? { k := n + 1; }
      n := n + 1;
    }
  }

  /** A batch that begins before the timer restarts it up to its first abort or close. */
  lemma BatchRestarts(start: real, debounce: real, events: seq<Event>, i: nat, n: nat, k: nat)
    requires debounce > 0.0 && i < |events| && StopsAt(events, i, n, k)
    requires Beats(Instant(start, events, i), debounce, events[i])
    requires forall j :: i <= j < n ==> events[j].at == events[i].at
    requires forall j :: 0 <= j < i ==> Restarts(start, debounce, events, j)
    ensures forall j :: 0 <= j < k ==> Restarts(start, debounce, events, j)
    ensures k < n ==> FirstStop(start, debounce, events, k) && events[k].at == events[i].at
    ensures i < k ==> Instant(start, events, k) == events[i].at
  {
    forall j | i <= j < n ensures Beats(Instant(start, events, j), debounce, events[j]) {
      if i < j { assert Instant(start, events, j) == events[i].at; }
    }
  }

  lemma Decided(start: real, debounce: real, events: seq<Event>, i: nat)
    requires FirstQuiet(start, debounce, events, i) || FirstStop(start, debounce, events, i)
    ensures FirstQuiet(start, debounce, events, i) ==> forall k: nat :: !FirstStop(start, debounce, events, k)
    ensures FirstStop(start, debounce, events, i) ==> forall k: nat :: !FirstQuiet(start, debounce, events, k)
  {
    OnlyOne(start, debounce, events, i);
    assert !FirstQuiet(start, debounce, events, i) || !FirstStop(start, debounce, events, i);
  }

  /**
   The loop, with a fresh timer and a race in every pass. The promise of next is the first of the two that
   the race looks at, so a change that is there already wins against an abort that is.
   */
  method DebounceUntilQuiet(start: real, debounce: real, events: seq<Event>, aborted0: bool, watch: BundleWatch)
    returns (r: Outcome)
    requires debounce > 0.0 && InOrder(start, events) && Free(watch.View())
    modifies watch
    ensures old(watch.closed) || aborted0 ==> r == Thrown(start)
    ensures !old(watch.closed) && !aborted0 ==>
              && (r.Quiet? <==> exists k: nat :: FirstQuiet(start, debounce, events, k))
              && (r.Thrown? <==> exists k: nat :: FirstStop(start, debounce, events, k))
              && (forall k: nat :: FirstQuiet(start, debounce, events, k) ==>
                    r == Quiet(Instant(start, events, k) + debounce))
              && (forall k: nat :: FirstStop(start, debounce, events, k) ==> r == Thrown(events[k].at))
  {
    hide Step, FirstStop;
    ghost var late := watch.closed || aborted0;
    AskAgain(watch.View());
    var ticket := watch.Next();
    var now, aborted, i := start, aborted0, 0;
    ghost var stop: nat := |events| + 1;
    while true
      invariant 0 <= i <= |events| && Asked(watch.View(), ticket)
      invariant late ==> i == 0 && now == start && (watch.closed || aborted)
      invariant !late && !(watch.closed || aborted) ==>
                  now == Instant(start, events, i) && forall j :: 0 <= j < i ==> Restarts(start, debounce, events, j)
      invariant !late && (watch.closed || aborted) ==>
                  stop < |events| && FirstStop(start, debounce, events, stop) && events[stop].at == now
      decreases |events| - i, watch.pending, ticket in watch.settled && watch.settled[ticket], ticket in watch.settled
    {
      var timer := now;
      if ticket !in watch.settled {
        if aborted {
          if !late { OnlyOne(start, debounce, events, stop); Decided(start, debounce, events, stop); }
          return Thrown(timer);
        }
        if i == |events| || !Beats(timer, debounce, events[i]) {
          assert FirstQuiet(start, debounce, events, i);
          OnlyOne(start, debounce, events, i);
          Decided(start, debounce, events, i);
          return Quiet(timer + debounce);
        }
        var first := i;
        now := events[i].at;
        i, aborted, stop := Batch(events, i, watch, ticket);
        BatchRestarts(start, debounce, events, first, i, stop);
        if events[first].kind.Abort? {
          OnlyOne(start, debounce, events, stop);
          Decided(start, debounce, events, stop);
          return Thrown(now);
        }
      }
      if !watch.settled[ticket] {
        if !late { OnlyOne(start, debounce, events, stop); Decided(start, debounce, events, stop); }
        return Thrown(now);
      }
      AskAgain(watch.View());
      ticket := watch.Next();
    }
  }
}
