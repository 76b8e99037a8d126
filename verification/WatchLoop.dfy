/**
 typescript/src/restart.ts, runWatchLoop: open, receive, back off, open again, until aborted. The
 outside (streams, timers, the abort signal, the consumer of the watch) is a script of events; an event
 nobody waits for has no effect. The log holds what the loop did.
 */
module WatchLoop {
  import opened Wrappers
  import opened Watching

  datatype Config = Config(min: real, max: real)

  datatype Event =
    | Abort
    | ConsumerNext
    | OpenSettles(ok: bool)
    | RecvSettles(changed: Option<bool>)
    | TimerFires
    | AbortWins

  datatype Effect = Open | Receive | Sleep(ms: real) | OnWatch(op: Op)

  /** What the loop awaits. */
  datatype Place = Opening | Receiving | Sleeping | Finished

  datatype Loop = Loop(place: Place, backoff: real, aborted: bool, log: seq<Effect>, watch: Watch)

  function NextBackoff(current: real, max: real): real
  {
    if current * 2.0 < max then current * 2.0 else max
  }

  function Tell(l: Loop, op: Op): Loop
  {
    l.(log := l.log + [OnWatch(op)], watch := Step(l.watch, op))
  }

  function Finish(l: Loop): Loop
  {
    Tell(l, Close).(place := Finished)
  }

  /** The head of the outer loop. */
  function Top(l: Loop): Loop
  {
    if l.aborted then Finish(l) else l.(place := Opening, log := l.log + [Open])
  }

  /** The head of the inner loop: racing against a signal that has fired already ends it. */
  function Await(l: Loop): Loop
  {
    if l.aborted then Finish(l) else l.(place := Receiving)
  }

  function Rest(l: Loop): Loop
  {
    if l.aborted then Finish(l) else l.(place := Sleeping, log := l.log + [Sleep(l.backoff)])
  }

  function Told(l: Loop, changed: bool): Loop
  {
    if changed then Tell(l, SignalChange) else l
  }

  function Resume(c: Config, l: Loop, e: Event): Loop
  {
    match e
    case Abort => l.(aborted := true)
    case ConsumerNext => Tell(l, Next)
    case OpenSettles(ok) => if !l.place.Opening? then l else if ok then Await(l) else Rest(l)
    case RecvSettles(result) =>
      if !l.place.Receiving? then l
      else if result.None? then Rest(l)
      else Await(Told(l.(backoff := c.min, log := l.log + [Receive]), result.value))
    case TimerFires => if !l.place.Sleeping? then l else Top(l.(backoff := NextBackoff(l.backoff, c.max)))
    case AbortWins => if l.aborted && !l.place.Finished? then Finish(l) else l
  }

  function Fold(c: Config, l: Loop, script: seq<Event>): Loop
    decreases script
  {
    if script == [] then l else Fold(c, Resume(c, l, script[0]), script[1..])
  }

  function Start(c: Config): Loop
  {
    Top(Loop(Opening, c.min, false, [], FRESH))
  }

  function Run(c: Config, script: seq<Event>): Loop
  {
    Fold(c, Start(c), script)
  }

  // The loop as it is written.

  lemma ShortScripts(c: Config, l: Loop, e: Event)
    ensures Fold(c, l, []) == l && Fold(c, l, [e]) == Resume(c, l, e)
  {
    assert Fold(c, Resume(c, l, e), []) == Resume(c, l, e);
  }

  /** Whether the promise the loop awaits settles with e. */
  predicate Settles(place: Place, aborted: bool, e: Event)
  {
    match e
    case OpenSettles(_) => place.Opening?
    case RecvSettles(_) => place.Receiving?
    case TimerFires => place.Sleeping?
    case AbortWins => aborted
    case _ => false
  }

  /** Lets the outside go on until the awaited promise settles; None when the script ends before. */
  method Awaiting(c: Config, l: Loop, script: seq<Event>, watch: BundleWatch)
    returns (e: Option<Event>, aborted: bool, log: seq<Effect>, rest: seq<Event>)
    requires !l.place.Finished? && l.watch == watch.View()
    modifies watch
    ensures var l' := l.(aborted := aborted, log := log, watch := watch.View());
            match e
            case None => Fold(c, l, script) == l' && rest == []
            case Some(v) => Settles(l.place, aborted, v) && |rest| < |script|
                            && Fold(c, l, script) == Fold(c, Resume(c, l', v), rest)
  {
    hide Step;
    aborted, log, rest := l.aborted, l.log, script;
    while rest != []
      invariant |rest| <= |script|
      invariant Fold(c, l, script) == Fold(c, l.(aborted := aborted, log := log, watch := watch.View()), rest)
    {
      var next := rest[0];
      rest := rest[1..];
      if Settles(l.place, aborted, next) {
        return Some(next), aborted, log, rest;
      }
      if next.Abort? {
        aborted := true;
      } else if next.ConsumerNext? {
        var _ := watch.Next();
        log := log + [OnWatch(Next)];
      }
    }
    return None, aborted, log, rest;
  }

  /** sleepOrAborted: Some(true) after the whole sleep, Some(false) when aborted, None when the script ends. */
  method SleepOrAborted(c: Config, backoff: real, aborted0: bool, log0: seq<Effect>, script: seq<Event>,
                        watch: BundleWatch)
    returns (slept: Option<bool>, aborted: bool, log: seq<Effect>, rest: seq<Event>)
    modifies watch
    ensures |rest| <= |script| && (slept == Some(true) ==> |rest| < |script|)
    ensures var was := Fold(c, Rest(Loop(Opening, backoff, aborted0, log0, old(watch.View()))), script);
            var l := Loop(Sleeping, backoff, aborted, log, watch.View());
            match slept
            case None => was == l && rest == []
            case Some(true) => was == Fold(c, Top(l.(backoff := NextBackoff(backoff, c.max))), rest)
            case Some(false) => was == Fold(c, Finish(l), rest)
  {
    hide Fold, Step;
    if aborted0 { return Some(false), aborted0, log0, script; }
    log := log0 + [Sleep(backoff)];
    var e;
    e, aborted, log, rest := Awaiting(c, Loop(Sleeping, backoff, aborted0, log, watch.View()), script, watch);
    slept := if e.None? then None else Some(e.value.TimerFires?);
  }

  /** Runs until the loop returns, or the script ends while it awaits something. */
  method RunWatchLoop(c: Config, script: seq<Event>, watch: BundleWatch) returns (l: Loop, rest: seq<Event>)
    requires watch.View() == FRESH
    modifies watch
    ensures Fold(c, l, rest) == Run(c, script)
    ensures rest == [] || l.place.Finished?
    ensures watch.View() == l.watch
  {
    hide Fold, Step, NextBackoff;
    var backoff, aborted, log, e, slept := c.min, false, [], None, None;
    rest := script;
    label reconnecting:
    while true
      invariant Fold(c, Top(Loop(Opening, backoff, aborted, log, watch.View())), rest) == Run(c, script)
      decreases |rest|
    {
      if aborted { break; }
      log := log + [Open];
      e, aborted, log, rest := Awaiting(c, Loop(Opening, backoff, aborted, log, watch.View()), rest, watch);
      if e.None? { l := Loop(Opening, backoff, aborted, log, watch.View()); ShortScripts(c, l, Abort); return; }
      if e.value.AbortWins? { break; }
      if e.value.ok {
        while true
          invariant Fold(c, Await(Loop(Opening, backoff, aborted, log, watch.View())), rest) == Run(c, script)
          decreases |rest|
        {
          if aborted { break reconnecting; }
          e, aborted, log, rest := Awaiting(c, Loop(Receiving, backoff, aborted, log, watch.View()), rest, watch);
          if e.None? { l := Loop(Receiving, backoff, aborted, log, watch.View()); ShortScripts(c, l, Abort); return; }
          if e.value.AbortWins? { break reconnecting; }
          if e.value.changed.None? { break; }
          backoff := c.min;
          log := log + [Receive];
          if e.value.changed.value {
            watch.SignalChange();
            log := log + [OnWatch(SignalChange)];
          }
        }
      }
      slept, aborted, log, rest := SleepOrAborted(c, backoff, aborted, log, rest, watch);
      if slept.None? { l := Loop(Sleeping, backoff, aborted, log, watch.View()); ShortScripts(c, l, Abort); return; }
      if !slept.value { break; }
      backoff := NextBackoff(backoff, c.max);
    }
    watch.Close();
    log := log + [OnWatch(Close)];
    l := Loop(Finished, backoff, aborted, log, watch.View());
  }

  // The invariant of every run, in terms of the log alone.

  /** The operations on the watch. */
  function OpsOf(log: seq<Effect>): seq<Op>
  {
    if log == [] then []
    else OpsOf(log[..|log| - 1]) + if log[|log| - 1].OnWatch? then [log[|log| - 1].op] else []
  }

  /** Sleeps since the start or the last message received. */
  function SleepsSince(log: seq<Effect>): nat
  {
    if log == [] then 0
    else match log[|log| - 1]
      case Receive => 0
      case Sleep(_) => SleepsSince(log[..|log| - 1]) + 1
      case _ => SleepsSince(log[..|log| - 1])
  }

  function Opens(log: seq<Effect>): nat
  {
    if log == [] then 0 else Opens(log[..|log| - 1]) + if log[|log| - 1].Open? then 1 else 0
  }

  function Closes(log: seq<Effect>): nat
  {
    if log == [] then 0 else Closes(log[..|log| - 1]) + if log[|log| - 1] == OnWatch(Close) then 1 else 0
  }

  /** The n-th sleep in a row, counting from 0. */
  function SleepLength(c: Config, n: nat): real
  {
    if n == 0 then c.min else NextBackoff(SleepLength(c, n - 1), c.max)
  }

  /** Every sleep lasts as long as the number of sleeps in a row before it says. */
  predicate SleepsRight(c: Config, log: seq<Effect>)
  {
    forall i :: 0 <= i < |log| && log[i].Sleep? ==> log[i].ms == SleepLength(c, SleepsSince(log[..i]))
  }

  predicate Good(c: Config, l: Loop)
  {
    && l.watch == Watching.Run(OpsOf(l.log))
    && (l.place.Finished? <==> l.watch.closed)
    && Closes(l.log) == (if l.place.Finished? then 1 else 0)
    && (l.place.Finished? ==> l.aborted)
    && SleepsRight(c, l.log)
    && (l.place.Opening? || l.place.Receiving? ==> l.backoff == SleepLength(c, SleepsSince(l.log)))
    && (l.place.Sleeping? ==> SleepsSince(l.log) > 0 && l.backoff == SleepLength(c, SleepsSince(l.log) - 1))
  }

  lemma OneMoreEffect(c: Config, log: seq<Effect>, e: Effect)
    ensures OpsOf(log + [e]) == if e.OnWatch? then OpsOf(log) + [e.op] else OpsOf(log)
    ensures SleepsSince(log + [e]) == if e.Receive? then 0 else SleepsSince(log) + if e.Sleep? then 1 else 0
    ensures Opens(log + [e]) == Opens(log) + if e.Open? then 1 else 0
    ensures Closes(log + [e]) == Closes(log) + if e == OnWatch(Close) then 1 else 0
    ensures SleepsRight(c, log) && (e.Sleep? ==> e.ms == SleepLength(c, SleepsSince(log))) ==> SleepsRight(c, log + [e])
  {
    var longer := log + [e];
    assert longer[..|log|] == log;
    forall i | 0 <= i < |log| ensures longer[i] == log[i] && longer[..i] == log[..i] {}
  }

  /** Good, but for the place, which is about to be set; n sleeps in a row lie behind. */
  predicate Ready(c: Config, l: Loop, n: nat)
  {
    && l.watch == Watching.Run(OpsOf(l.log))
    && !l.watch.closed
    && Closes(l.log) == 0
    && SleepsRight(c, l.log)
    && SleepsSince(l.log) == n
    && l.backoff == SleepLength(c, n)
  }

  lemma TellKeeps(c: Config, l: Loop, op: Op)
    requires l.watch == Watching.Run(OpsOf(l.log)) && SleepsRight(c, l.log)
    ensures var l' := Tell(l, op);
            && l'.watch == Watching.Run(OpsOf(l'.log)) && SleepsRight(c, l'.log)
            && SleepsSince(l'.log) == SleepsSince(l.log)
            && Closes(l'.log) == Closes(l.log) + (if op.Close? then 1 else 0)
            && (l'.watch.closed <==> l.watch.closed || op.Close?)
  {
    hide OpsOf, SleepsSince, Closes, SleepsRight, Watching.Run;
    OneMoreEffect(c, l.log, OnWatch(op));
    LastCounts(OpsOf(l.log), op);
  }

  lemma FinishKeeps(c: Config, l: Loop)
    requires l.aborted && l.watch == Watching.Run(OpsOf(l.log)) && SleepsRight(c, l.log)
    requires !l.watch.closed && Closes(l.log) == 0
    ensures Good(c, Finish(l))
  {
    hide OpsOf, SleepsSince, Closes, SleepsRight, Watching.Run, Step;
    TellKeeps(c, l, Close);
  }

  lemma ReadyKeeps(c: Config, l: Loop, n: nat)
    requires Ready(c, l, n)
    ensures Good(c, Top(l)) && Good(c, Rest(l)) && Good(c, Await(l))
  {
    hide OpsOf, SleepsSince, Closes, SleepsRight, Watching.Run, Step, SleepLength;
    OneMoreEffect(c, l.log, Open);
    OneMoreEffect(c, l.log, Sleep(l.backoff));
    if l.aborted { FinishKeeps(c, l); }
  }

  lemma MessageReady(c: Config, l: Loop, changed: bool)
    requires Good(c, l) && l.place.Receiving?
    ensures Ready(c, Told(l.(backoff := c.min, log := l.log + [Receive]), changed), 0)
  {
    hide OpsOf, SleepsSince, Closes, SleepsRight, Watching.Run, Step;
    OneMoreEffect(c, l.log, Receive);
    if changed { TellKeeps(c, l.(backoff := c.min, log := l.log + [Receive]), SignalChange); }
  }

  lemma ResumeKeeps(c: Config, l: Loop, e: Event)
    requires Good(c, l)
    ensures Good(c, Resume(c, l, e))
  {
    hide OpsOf, SleepsSince, Closes, SleepsRight, Watching.Run, Step, Top, Await, Rest, Finish, NextBackoff;
    var n := SleepsSince(l.log);
    match e
    case Abort =>
    case ConsumerNext => TellKeeps(c, l, Next);
    case OpenSettles(ok) => if l.place.Opening? { ReadyKeeps(c, l, n); }
    case RecvSettles(result) =>
      if l.place.Receiving? {
        if result.Some? {
          MessageReady(c, l, result.value);
          ReadyKeeps(c, Told(l.(backoff := c.min, log := l.log + [Receive]), result.value), 0);
        } else {
          ReadyKeeps(c, l, n);
        }
      }
    case TimerFires => if l.place.Sleeping? { ReadyKeeps(c, l.(backoff := NextBackoff(l.backoff, c.max)), n); }
    case AbortWins => if l.aborted && !l.place.Finished? { FinishKeeps(c, l); }
  }

  lemma {:induction false} FoldKeeps(c: Config, l: Loop, script: seq<Event>)
    requires Good(c, l)
    ensures Good(c, Fold(c, l, script))
    decreases script
  {
    hide Good, Resume;
    if script != [] {
      ResumeKeeps(c, l, script[0]);
      FoldKeeps(c, Resume(c, l, script[0]), script[1..]);
    }
  }

  /**
   On every run: the watch is closed once, exactly when the loop has returned, and only after an abort;
   every sleep is as long as its number in the row says.
   */
  lemma RunIsGood(c: Config, script: seq<Event>)
    ensures Good(c, Run(c, script))
  {
    hide Good, Fold;
    ReadyKeeps(c, Loop(Opening, c.min, false, [], FRESH), 0);
    FoldKeeps(c, Start(c), script);
  }

  /** An abort always gets through, wherever the loop is. */
  lemma AbortEndsIt(c: Config, script: seq<Event>)
    ensures Run(c, script + [Abort, AbortWins]).place.Finished?
  {
    hide Resume;
    FoldSplits(c, Start(c), script, [Abort, AbortWins]);
    TwoSteps(c, Run(c, script));
  }

  lemma TwoSteps(c: Config, l: Loop)
    ensures Fold(c, l, [Abort, AbortWins]) == Resume(c, Resume(c, l, Abort), AbortWins)
    ensures Fold(c, l, [Abort, AbortWins]).place.Finished?
  {
    hide Step;
    var rest := [AbortWins];
    assert [Abort, AbortWins][1..] == rest && rest[1..] == [];
    assert Fold(c, Resume(c, l, Abort), rest) == Resume(c, Resume(c, l, Abort), AbortWins);
  }

  lemma {:induction false} FoldSplits(c: Config, l: Loop, first: seq<Event>, second: seq<Event>)
    ensures Fold(c, l, first + second) == Fold(c, Fold(c, l, first), second)
    decreases first
  {
    hide Resume;
    if first == [] {
      assert first + second == second;
    } else {
      assert (first + second)[1..] == first[1..] + second;
      FoldSplits(c, Resume(c, l, first[0]), first[1..], second);
    }
  }

  // Nothing is opened after an abort.

  lemma TellOpens(l: Loop, op: Op)
    ensures Opens(Tell(l, op).log) == Opens(l.log) && Tell(l, op).aborted == l.aborted
  {
    hide Opens, Step;
    OneMoreEffect(Config(0.0, 0.0), l.log, OnWatch(op));
  }

  lemma AbortedStep(c: Config, l: Loop, e: Event)
    requires l.aborted
    ensures var l' := Resume(c, l, e); l'.aborted && Opens(l'.log) == Opens(l.log)
  {
    hide Opens, Step, NextBackoff, Tell;
    TellOpens(l, Close);
    TellOpens(l, Next);
    TellOpens(l.(backoff := NextBackoff(l.backoff, c.max)), Close);
    var received := l.(backoff := c.min, log := l.log + [Receive]);
    OneMoreEffect(c, l.log, Receive);
    TellOpens(received, SignalChange);
    TellOpens(received, Close);
    TellOpens(Tell(received, SignalChange), Close);
  }

  /** Once the signal is aborted no stream is opened any more. */
  lemma {:induction false} NoOpenAfterAbort(c: Config, l: Loop, more: seq<Event>)
    requires l.aborted
    ensures Opens(Fold(c, l, more).log) == Opens(l.log)
    decreases more
  {
    hide Resume, Opens;
    if more != [] {
      AbortedStep(c, l, more[0]);
      NoOpenAfterAbort(c, Resume(c, l, more[0]), more[1..]);
    }
  }

  // The length of a sleep.

  function Doubled(x: real, n: nat): real
  {
    if n == 0 then x else 2.0 * Doubled(x, n - 1)
  }

  function Min(x: real, y: real): real
  {
    if x < y then x else y
  }

  lemma {:induction false} DoubledSign(x: real, n: nat)
    ensures x >= 0.0 ==> Doubled(x, n) >= x
    ensures x <= 0.0 ==> Doubled(x, n) <= x
  {
    if n > 0 { DoubledSign(x, n - 1); }
  }

  lemma {:induction false} CappedDoubling(c: Config, n: nat)
    requires c.min <= c.max || (c.max >= 0.0 && n > 0)
    ensures SleepLength(c, n) == Min(Doubled(c.min, n), c.max)
  {
    if n > 1 || (n == 1 && c.min <= c.max) {
      CappedDoubling(c, n - 1);
      DoubledSign(c.min, n - 1);
    }
  }

  /** The n-th sleep in a row, from 0, lasts min(min * 2^n, max): exactly when min is at most max. */
  lemma BackoffClosedForm(c: Config)
    ensures (forall n: nat :: SleepLength(c, n) == Min(Doubled(c.min, n), c.max)) <==> c.min <= c.max
  {
    if c.min <= c.max {
      forall n: nat ensures SleepLength(c, n) == Min(Doubled(c.min, n), c.max) {
        CappedDoubling(c, n);
      }
    } else {
      assert SleepLength(c, 0) != Min(Doubled(c.min, 0), c.max);
    }
  }

  /** Every sleep on every run, whether opening or receiving failed before it. */
  lemma EverySleep(c: Config, script: seq<Event>, i: nat)
    requires c.min <= c.max
    ensures var log := Run(c, script).log;
            i < |log| && log[i].Sleep? ==> log[i].ms == Min(Doubled(c.min, SleepsSince(log[..i])), c.max)
  {
    hide Run, SleepLength, Doubled;
    RunIsGood(c, script);
    var log := Run(c, script).log;
    if i < |log| {
      CappedDoubling(c, SleepsSince(log[..i]));
    }
  }

  // No change is lost, however often the stream breaks.

  lemma ResumeLogs(c: Config, l: Loop, e: Event) returns (more: seq<Effect>)
    ensures Resume(c, l, e).log == l.log + more
  {
    hide Step, NextBackoff;
    more := Resume(c, l, e).log[|l.log|..];
  }

  lemma {:induction false} FoldLogs(c: Config, l: Loop, script: seq<Event>) returns (more: seq<Effect>)
    ensures Fold(c, l, script).log == l.log + more
    decreases script
  {
    hide Resume;
    if script == [] {
      more := [];
    } else {
      var first := ResumeLogs(c, l, script[0]);
      var rest := FoldLogs(c, Resume(c, l, script[0]), script[1..]);
      more := first + rest;
    }
  }

  lemma {:induction false} OpsSplit(log: seq<Effect>, more: seq<Effect>)
    ensures OpsOf(log + more) == OpsOf(log) + OpsOf(more)
    decreases |more|
  {
    if more == [] {
      assert log + more == log;
    } else {
      var n := |more| - 1;
      assert (log + more)[..|log + more| - 1] == log + more[..n];
      OpsSplit(log, more[..n]);
    }
  }

  /**
   A CHANGED message received on any connection is answered by true: to a call not answered before it,
   at the latest the next one made, however the run goes on; until that call it stays pending.
   */
  lemma ChangeReachesConsumer(c: Config, before: seq<Event>, after: seq<Event>) returns (ticket: nat)
    requires Run(c, before).place.Receiving?
    ensures var w := Run(c, before).watch; ticket !in w.settled && ticket <= w.calls
    ensures var w := Run(c, before + [RecvSettles(Some(true))] + after).watch;
            if ticket < w.calls then ticket in w.settled && w.settled[ticket] else w.pending
  {
    hide Fold, Resume, OpsOf, Watching.Run, SleepsRight, Closes, SleepLength;
    var l, event := Run(c, before), RecvSettles(Some(true));
    RunIsGood(c, before);
    RunIsGood(c, before + [event] + after);
    FoldSplits(c, Start(c), before + [event], after);
    FoldSplits(c, Start(c), before, [event]);
    ShortScripts(c, l, event);
    var tail := SignalLogged(c, l);
    var more := FoldLogs(c, Resume(c, l, event), after);
    var signalled := l.log + [Receive] + [OnWatch(SignalChange)];
    assert Run(c, before + [event] + after).log == signalled + (tail + more);
    OneMoreEffect(c, l.log, Receive);
    OneMoreEffect(c, l.log + [Receive], OnWatch(SignalChange));
    OpsSplit(signalled, tail + more);
    ticket := NoChangeLost(OpsOf(l.log), OpsOf(tail + more));
  }

  lemma SignalLogged(c: Config, l: Loop) returns (tail: seq<Effect>)
    requires l.place.Receiving?
    ensures Resume(c, l, RecvSettles(Some(true))).log == l.log + [Receive] + [OnWatch(SignalChange)] + tail
  {
    hide Step;
    tail := if l.aborted then [OnWatch(Close)] else [];
  }
}
