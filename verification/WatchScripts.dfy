/**
 The watch loops of typescript/src/restart.ts and go/restart.go against what the outside does: which
 effects each event has on a run, and the whole log of a run told as a list of connection attempts.
 */
module WatchScripts {
  import opened Wrappers
  import opened BitStrings
  import Watching
  import opened WatchLoop
  import Go = GoWatch

  /** A stream that could not be opened, or one that carried these messages before it broke. */
  datatype Attempt = Refused | Connected(messages: seq<bool>)

  /** What hearing one message does, true standing for CHANGED. */
  function Effects(changed: bool): seq<Effect>
  {
    [Receive] + if changed then [OnWatch(Watching.SignalChange)] else []
  }

  function Heard(messages: seq<bool>): seq<Effect>
  {
    if messages == [] then [] else Effects(messages[0]) + Heard(messages[1..])
  }

  /** The number of the sleep after an attempt that n sleeps in a row went before. */
  function RowAfter(n: nat, a: Attempt): nat
  {
    if a.Connected? && a.messages != [] then 0 else n
  }

  /** What one attempt adds to the log before the next stream is opened. */
  function AttemptLog(c: Config, n: nat, a: Attempt): seq<Effect>
  {
    [Open] + (if a.Connected? then Heard(a.messages) else []) + [Sleep(SleepLength(c, RowAfter(n, a)))]
  }

  /** The log of a run that opened once more after each of these attempts. */
  function LogOf(c: Config, n: nat, attempts: seq<Attempt>): seq<Effect>
    decreases attempts
  {
    if attempts == [] then [Open]
    else
      var a := attempts[0];
      AttemptLog(c, n, a) + LogOf(c, RowAfter(n, a) + 1, attempts[1..])
  }

  // The outside of the TypeScript loop.

  function Messages(messages: seq<bool>): seq<Event>
  {
    seq(|messages|, i requires 0 <= i < |messages| => RecvSettles(Some(messages[i])))
  }

  function EventsOf(a: Attempt): seq<Event>
  {
    match a
    case Refused => [OpenSettles(false), TimerFires]
    case Connected(messages) => [OpenSettles(true)] + Messages(messages) + [RecvSettles(None), TimerFires]
  }

  function ScriptOf(attempts: seq<Attempt>): seq<Event>
  {
    if attempts == [] then [] else EventsOf(attempts[0]) + ScriptOf(attempts[1..])
  }

  /** What the outside's events do on a run that is not aborted, wherever it got to. */
  lemma EveryReaction(c: Config, script: seq<Event>)
    requires !Run(c, script).aborted
    ensures var l := Run(c, script);
            var sleep := Sleep(SleepLength(c, SleepsSince(l.log)));
            && !l.place.Finished?
            && (l.place.Opening? ==>
                 && Run(c, script + [OpenSettles(true)]) == l.(place := Receiving)
                 && Run(c, script + [OpenSettles(false)]) == l.(place := Sleeping, log := l.log + [sleep]))
            && (l.place.Receiving? ==>
                 && Run(c, script + [RecvSettles(Some(true))]).place.Receiving?
                 && Run(c, script + [RecvSettles(Some(true))]).log == l.log + [Receive, OnWatch(Watching.SignalChange)]
                 && Run(c, script + [RecvSettles(Some(false))])
                    == l.(backoff := SleepLength(c, 0), log := l.log + [Receive])
                 && Run(c, script + [RecvSettles(None)]) == l.(place := Sleeping, log := l.log + [sleep]))
            && (l.place.Sleeping? ==>
                 && Run(c, script + [TimerFires]).place.Opening?
                 && Run(c, script + [TimerFires]).log == l.log + [Open])
  {
    hide Fold, Watching.Step, SleepsSince, NextBackoff, SleepsRight, OpsOf, Closes;
    RunIsGood(c, script);
    var l := Run(c, script);
    OneEventMore(c, script, OpenSettles(true));
    OneEventMore(c, script, OpenSettles(false));
    OneEventMore(c, script, RecvSettles(Some(true)));
    OneEventMore(c, script, RecvSettles(Some(false)));
    OneEventMore(c, script, RecvSettles(None));
    OneEventMore(c, script, TimerFires);
    assert l.log + [Receive] + [OnWatch(Watching.SignalChange)] == l.log + [Receive, OnWatch(Watching.SignalChange)];
  }

  /** Once aborted, whatever the loop awaits ends it when it settles, and it neither sleeps nor opens again. */
  lemma AbortedReaction(c: Config, script: seq<Event>, e: Event)
    requires Run(c, script).aborted
    requires Settles(Run(c, script).place, true, e) && !Run(c, script).place.Finished?
    ensures var l, l' := Run(c, script), Run(c, script + [e]);
            && l'.place.Finished?
            && l'.log == l.log + (if e.RecvSettles? && e.changed.Some? then Effects(e.changed.value) else [])
                         + [OnWatch(Watching.Close)]
  {
    hide Fold, Watching.Step, NextBackoff;
    var l := Run(c, script);
    OneEventMore(c, script, e);
    assert l.log + [] == l.log;
    assert l.log + [Receive] + [OnWatch(Watching.SignalChange)] == l.log + Effects(true);
    assert Effects(false) == [Receive];
  }

  lemma OneEventMore(c: Config, script: seq<Event>, e: Event)
    ensures Run(c, script + [e]) == Resume(c, Run(c, script), e)
  {
    hide Resume;
    FoldSplits(c, Start(c), script, [e]);
    ShortScripts(c, Run(c, script), e);
  }

  /** A CHANGED message on a stream just opened reaches the consumer, however the run got there and goes on. */
  lemma ChangeAfterOpening(c: Config, before: seq<Event>, after: seq<Event>) returns (ticket: nat)
    requires Run(c, before).place.Opening? && !Run(c, before).aborted
    ensures var w := Run(c, before).watch; ticket !in w.settled && ticket <= w.calls
    ensures var w := Run(c, before + [OpenSettles(true), RecvSettles(Some(true))] + after).watch;
            if ticket < w.calls then ticket in w.settled && w.settled[ticket] else w.pending
  {
    hide Run;
    EveryReaction(c, before);
    ticket := ChangeReachesConsumer(c, before + [OpenSettles(true)], after);
    assert before + [OpenSettles(true)] + [RecvSettles(Some(true))]
        == before + [OpenSettles(true), RecvSettles(Some(true))];
  }

  // Whole runs.

  lemma {:induction false} HearsAll(c: Config, before: seq<Event>, messages: seq<bool>)
    requires Run(c, before).place.Receiving? && !Run(c, before).aborted
    ensures var l := Run(c, before + Messages(messages));
            l.place.Receiving? && !l.aborted && l.log == Run(c, before).log + Heard(messages)
    decreases messages
  {
    hide Run, SleepLength, SleepsSince;
    if messages == [] {
      assert before + Messages(messages) == before;
    } else {
      var next := before + [RecvSettles(Some(messages[0]))];
      HearsOne(c, before, messages[0]);
      HearsAll(c, next, messages[1..]);
      assert before + Messages(messages) == next + Messages(messages[1..]);
      HeardFirst(Run(c, before).log, messages);
    }
  }

  lemma HeardFirst(log: seq<Effect>, messages: seq<bool>)
    requires messages != []
    ensures log + Heard(messages) == log + Effects(messages[0]) + Heard(messages[1..])
  {
    ConcatAssoc(log, Effects(messages[0]), Heard(messages[1..]));
  }

  lemma HearsOne(c: Config, before: seq<Event>, changed: bool)
    requires Run(c, before).place.Receiving? && !Run(c, before).aborted
    ensures var l := Run(c, before + [RecvSettles(Some(changed))]);
            l.place.Receiving? && !l.aborted && l.log == Run(c, before).log + Effects(changed)
  {
    hide Run, SleepLength, SleepsSince;
    EveryReaction(c, before);
    NotAborted(c, before, RecvSettles(Some(changed)));
  }

  lemma NotAborted(c: Config, script: seq<Event>, e: Event)
    requires !e.Abort?
    ensures Run(c, script + [e]).aborted == Run(c, script).aborted
  {
    OneEventMore(c, script, e);
    hide Run, Watching.Step;
  }

  lemma {:induction false} HeardRow(log: seq<Effect>, messages: seq<bool>)
    ensures SleepsSince(log + Heard(messages)) == if messages == [] then SleepsSince(log) else 0
    decreases messages
  {
    hide SleepsSince;
    if messages == [] {
      assert log + Heard(messages) == log;
    } else {
      EffectsRow(log, messages[0]);
      HeardRow(log + Effects(messages[0]), messages[1..]);
      HeardFirst(log, messages);
    }
  }

  lemma EffectsRow(log: seq<Effect>, changed: bool)
    ensures SleepsSince(log + Effects(changed)) == 0
  {
    hide SleepsSince;
    OneMoreEffect(Config(0.0, 0.0), log, Receive);
    OneMoreEffect(Config(0.0, 0.0), log + [Receive], OnWatch(Watching.SignalChange));
    ConcatAssoc(log, [Receive], [OnWatch(Watching.SignalChange)]);
    assert changed || Effects(changed) == [Receive];
  }

  /** One attempt, from one opening to the next. */
  lemma AttemptRuns(c: Config, before: seq<Event>, a: Attempt)
    requires Run(c, before).place.Opening? && !Run(c, before).aborted
    ensures var l, l' := Run(c, before), Run(c, before + EventsOf(a));
            var row := RowAfter(SleepsSince(l.log), a);
            && l'.place.Opening? && !l'.aborted && SleepsSince(l'.log) == row + 1
            && l'.log == l.log + (if a.Connected? then Heard(a.messages) else [])
                         + [Sleep(SleepLength(c, row))] + [Open]
  {
    hide Run, SleepLength, SleepsSince, Heard;
    var l := Run(c, before);
    EveryReaction(c, before);
    if a.Refused? {
      BackOff(c, before, OpenSettles(false));
      assert before + [OpenSettles(false)] + [TimerFires] == before + EventsOf(a);
      assert l.log + [] == l.log;
    } else {
      NotAborted(c, before, OpenSettles(true));
      HearsAll(c, before + [OpenSettles(true)], a.messages);
      HeardRow(l.log, a.messages);
      var heard := before + [OpenSettles(true)] + Messages(a.messages);
      EveryReaction(c, heard);
      BackOff(c, heard, RecvSettles(None));
      assert heard + [RecvSettles(None)] + [TimerFires] == before + EventsOf(a);
    }
  }

  lemma BackOff(c: Config, script: seq<Event>, e: Event)
    requires !e.Abort? && !Run(c, script).aborted && Run(c, script + [e]).place.Sleeping?
    requires var l := Run(c, script); Run(c, script + [e]).log == l.log + [Sleep(SleepLength(c, SleepsSince(l.log)))]
    ensures var l, l' := Run(c, script), Run(c, script + [e] + [TimerFires]);
            && l'.place.Opening? && !l'.aborted && SleepsSince(l'.log) == SleepsSince(l.log) + 1
            && l'.log == l.log + [Sleep(SleepLength(c, SleepsSince(l.log)))] + [Open]
  {
    hide Run, SleepLength, SleepsSince;
    var l := Run(c, script);
    NotAborted(c, script, e);
    NotAborted(c, script + [e], TimerFires);
    EveryReaction(c, script + [e]);
    var sleep := Sleep(SleepLength(c, SleepsSince(l.log)));
    RowGrows(l.log, sleep);
  }

  lemma RowGrows(log: seq<Effect>, sleep: Effect)
    requires sleep.Sleep?
    ensures SleepsSince(log + [sleep] + [Open]) == SleepsSince(log) + 1
  {
    hide SleepsSince;
    OneMoreEffect(Config(0.0, 0.0), log, sleep);
    OneMoreEffect(Config(0.0, 0.0), log + [sleep], Open);
  }

  lemma {:induction false} MoreAttempts(c: Config, before: seq<Event>, early: seq<Effect>, attempts: seq<Attempt>)
    requires Run(c, before).place.Opening? && !Run(c, before).aborted && Run(c, before).log == early + [Open]
    ensures var l := Run(c, before + ScriptOf(attempts));
            && l.place.Opening? && !l.aborted
            && l.log == early + LogOf(c, SleepsSince(Run(c, before).log), attempts)
    decreases attempts
  {
    hide Run, SleepLength, SleepsSince, Heard, RowAfter;
    if attempts == [] {
      assert before + ScriptOf(attempts) == before;
    } else {
      var a, n := attempts[0], SleepsSince(Run(c, before).log);
      AttemptRuns(c, before, a);
      AttemptAdds(c, early, n, a);
      hide AttemptLog;
      MoreAttempts(c, before + EventsOf(a), early + AttemptLog(c, n, a), attempts[1..]);
      ConcatAssoc(before, EventsOf(a), ScriptOf(attempts[1..]));
      ConcatAssoc(early, AttemptLog(c, n, a), LogOf(c, RowAfter(n, a) + 1, attempts[1..]));
    }
  }

  lemma AttemptAdds(c: Config, early: seq<Effect>, n: nat, a: Attempt)
    ensures (early + [Open]) + (if a.Connected? then Heard(a.messages) else [])
            + [Sleep(SleepLength(c, RowAfter(n, a)))] + [Open]
         == (early + AttemptLog(c, n, a)) + [Open]
  {
    hide Heard, SleepLength, RowAfter;
    var heard, sleep := if a.Connected? then Heard(a.messages) else [], [Sleep(SleepLength(c, RowAfter(n, a)))];
    ConcatAssoc(early, [Open], heard);
    ConcatAssoc(early, [Open] + heard, sleep);
  }

  /** Attempt after attempt: every message heard and signalled, one sleep and one new stream for each failure. */
  lemma AttemptsAre(c: Config, attempts: seq<Attempt>)
    ensures var l := Run(c, ScriptOf(attempts));
            l.place.Opening? && !l.aborted && l.log == LogOf(c, 0, attempts)
  {
    hide LogOf, ScriptOf;
    var l := Run(c, []);
    assert l == Start(c) && l.log == [] + [Open];
    OneMoreEffect(c, [], Open);
    MoreAttempts(c, [], [], attempts);
    assert [] + ScriptOf(attempts) == ScriptOf(attempts);
    assert [] + LogOf(c, 0, attempts) == LogOf(c, 0, attempts);
  }

  // The goroutine of restart.go.

  lemma {:induction false} GoSplits(s: Go.State, first: seq<Go.Action>, second: seq<Go.Action>)
    ensures Go.More(s, first + second)
         == match Go.More(s, first) case None => None case Some(s') => Go.More(s', second)
    decreases first
  {
    hide Go.Apply;
    if first == [] {
      assert first + second == second;
    } else {
      assert (first + second)[1..] == first[1..] + second;
      if Go.Apply(s, first[0]).Some? {
        GoSplits(Go.Apply(s, first[0]).value, first[1..], second);
      }
    }
  }

  lemma GoOneMore(s: Go.State, acts: seq<Go.Action>, a: Go.Action)
    requires Go.More(s, acts).Some?
    ensures Go.More(s, acts + [a]) == Go.Apply(Go.More(s, acts).value, a)
  {
    hide Go.Apply;
    GoSplits(s, acts, [a]);
    var s' := Go.More(s, acts).value;
    if Go.Apply(s', a).Some? { Go.JustOne(s', a); }
  }

  /** What each answer of the outside does to the goroutine, on every run. */
  lemma GoReactions(acts: seq<Go.Action>)
    requires Go.More(Go.START, acts).Some?
    ensures var s := Go.More(Go.START, acts).value;
            var sleep := Sleep(Min(Doubled(1.0, SleepsSince(s.log)), 30.0));
            var asleep := Some(s.(stage := Go.Asleep, log := s.log + [sleep]));
            && (s.stage.Dialling? ==>
                 && Go.More(Go.START, acts + [Go.OpenReturns(true)]) == Some(s.(stage := Go.Reading))
                 && Go.More(Go.START, acts + [Go.OpenReturns(false)]) == asleep)
            && (s.stage.Reading? ==>
                 && Go.More(Go.START, acts + [Go.RecvReturns(Some(false))])
                    == Some(s.(backoff := 1.0, log := s.log + [Receive]))
                 && Go.More(Go.START, acts + [Go.RecvReturns(Some(true))])
                    == Some(s.(backoff := 1.0, log := s.log + [Receive], pending := true,
                               sent := s.taken + 1))
                 && Go.More(Go.START, acts + [Go.RecvReturns(None)]) == Some(s.(stage := Go.Broken)))
            && var returned := Some(s.(stage := Go.Returned, closed := true));
            && (s.stage.Broken? ==>
                 Go.More(Go.START, acts + [Go.Look]) == if s.cancelled then returned else asleep)
            && (s.stage.Head? ==>
                 Go.More(Go.START, acts + [Go.Look]) == if s.cancelled then returned else Some(s.(stage := Go.Past)))
            && (s.stage.Past? ==>
                 Go.More(Go.START, acts + [Go.OpenCalled])
                 == Some(s.(stage := Go.Dialling, log := s.log + [Open])))
            && (s.stage.Asleep? ==>
                 && Go.More(Go.START, acts + [Go.SleepEnds(false)]) == (if s.cancelled then returned else None)
                 && Go.More(Go.START, acts + [Go.SleepEnds(true)])
                    == Some(s.(stage := Go.Head, backoff := Min(Doubled(1.0, SleepsSince(s.log)), 30.0))))
  {
    hide Go.More, SleepsSince, SleepsRight, SleepLength, Doubled, NextBackoff;
    GoRunKeeps(acts);
    GoOneMore(Go.START, acts, Go.OpenReturns(true));
    GoOneMore(Go.START, acts, Go.OpenReturns(false));
    GoOneMore(Go.START, acts, Go.RecvReturns(Some(false)));
    GoOneMore(Go.START, acts, Go.RecvReturns(Some(true)));
    GoOneMore(Go.START, acts, Go.RecvReturns(None));
    GoOneMore(Go.START, acts, Go.Look);
    GoOneMore(Go.START, acts, Go.OpenCalled);
    GoOneMore(Go.START, acts, Go.SleepEnds(false));
    GoOneMore(Go.START, acts, Go.SleepEnds(true));
    SleepGrows(SleepsSince(Go.More(Go.START, acts).value.log));
    CappedDoubling(Go.GO, SleepsSince(Go.More(Go.START, acts).value.log));
  }

  lemma SleepGrows(n: nat)
    ensures n > 0 ==> SleepLength(Go.GO, n) == NextBackoff(SleepLength(Go.GO, n - 1), 30.0)
  {}

  lemma GoRunKeeps(acts: seq<Go.Action>)
    requires Go.More(Go.START, acts).Some?
    ensures Go.Inv(Go.More(Go.START, acts).value)
  {
    assert Go.Inv(Go.START);
    Go.MoreKeeps(Go.START, acts);
  }

  function GoMessages(messages: seq<bool>): seq<Go.Action>
  {
    if messages == [] then [] else [Go.RecvReturns(Some(messages[0]))] + GoMessages(messages[1..])
  }

  function GoEventsOf(a: Attempt): seq<Go.Action>
  {
    match a
    case Refused => [Go.Look, Go.OpenCalled, Go.OpenReturns(false), Go.SleepEnds(true)]
    case Connected(messages) =>
      [Go.Look, Go.OpenCalled, Go.OpenReturns(true)] + GoMessages(messages)
      + [Go.RecvReturns(None), Go.Look, Go.SleepEnds(true)]
  }

  function GoScriptOf(attempts: seq<Attempt>): seq<Go.Action>
  {
    if attempts == [] then [] else GoEventsOf(attempts[0]) + GoScriptOf(attempts[1..])
  }

  function Receives(n: nat): seq<Effect>
  {
    seq(n, _ => Receive)
  }

  function GoAttemptLog(n: nat, a: Attempt): seq<Effect>
  {
    [Open] + Receives(if a.Connected? then |a.messages| else 0) + [Sleep(Min(Doubled(1.0, RowAfter(n, a)), 30.0))]
  }

  function GoLogOf(n: nat, attempts: seq<Attempt>): seq<Effect>
    decreases attempts
  {
    if attempts == [] then []
    else
      var a := attempts[0];
      GoAttemptLog(n, a) + GoLogOf(RowAfter(n, a) + 1, attempts[1..])
  }

  predicate AnyChange(attempts: seq<Attempt>) {
    exists i :: 0 <= i < |attempts| && attempts[i].Connected? && true in attempts[i].messages
  }

  lemma GoHearsOne(s: Go.State, changed: bool)
    requires s.stage.Reading? && Go.Inv(s)
    ensures Go.Apply(s, Go.RecvReturns(Some(changed))).Some?
    ensures var s' := Go.Apply(s, Go.RecvReturns(Some(changed))).value;
            && s'.stage.Reading? && Go.Inv(s') && s'.cancelled == s.cancelled && s'.taken == s.taken
            && s'.log == s.log + [Receive] && SleepsSince(s'.log) == 0 && (s'.pending <==> s.pending || changed)
  {
    hide SleepsSince, SleepsRight, SleepLength;
    Go.StepKeeps(s, Go.RecvReturns(Some(changed)));
    OneMoreEffect(Go.GO, s.log, Receive);
  }

  lemma {:induction false} GoHearsAll(s: Go.State, messages: seq<bool>)
    requires s.stage.Reading? && Go.Inv(s)
    ensures Go.More(s, GoMessages(messages)).Some?
    ensures var s' := Go.More(s, GoMessages(messages)).value;
            && s'.stage.Reading? && Go.Inv(s') && s'.cancelled == s.cancelled && s'.taken == s.taken
            && s'.log == s.log + Receives(|messages|)
            && SleepsSince(s'.log) == (if messages == [] then SleepsSince(s.log) else 0)
            && (s'.pending <==> s.pending || true in messages)
    decreases messages
  {
    hide SleepsSince, Go.Inv, Go.Apply;
    if messages == [] {
      assert s.log + Receives(0) == s.log;
    } else {
      var a := Go.RecvReturns(Some(messages[0]));
      GoHearsOne(s, messages[0]);
      GoHearsAll(Go.Apply(s, a).value, messages[1..]);
      assert GoMessages(messages)[0] == a && GoMessages(messages)[1..] == GoMessages(messages[1..]);
      assert s.log + [Receive] + Receives(|messages| - 1) == s.log + Receives(|messages|);
      assert messages == [messages[0]] + messages[1..];
    }
  }

  /** From the head of the loop to an answer from open. */
  lemma GoOpens(s: Go.State, ok: bool)
    requires s.stage.Head? && !s.cancelled && Go.Inv(s)
    ensures Go.More(s, [Go.Look, Go.OpenCalled, Go.OpenReturns(ok)]).Some?
    ensures var s' := Go.More(s, [Go.Look, Go.OpenCalled, Go.OpenReturns(ok)]).value;
            var log := s.log + [Open];
            && Go.Inv(s') && !s'.cancelled && s'.taken == s.taken && s'.pending == s.pending
            && SleepsSince(log) == SleepsSince(s.log)
            && (if ok then s'.stage.Reading? && s'.log == log
                else s'.stage.Asleep? && s'.log == log + [Sleep(SleepLength(Go.GO, SleepsSince(log)))])
  {
    hide SleepsSince, SleepsRight, SleepLength;
    var past := Go.Apply(s, Go.Look).value;
    var dialling := Go.Apply(past, Go.OpenCalled).value;
    Go.StepKeeps(s, Go.Look);
    Go.StepKeeps(past, Go.OpenCalled);
    Go.StepKeeps(dialling, Go.OpenReturns(ok));
    OneMoreEffect(Go.GO, s.log, Open);
    ThreeMore(s, Go.Look, Go.OpenCalled, Go.OpenReturns(ok));
  }

  lemma ThreeMore(s: Go.State, a: Go.Action, b: Go.Action, c: Go.Action)
    requires Go.Apply(s, a).Some? && Go.Apply(Go.Apply(s, a).value, b).Some?
    ensures Go.More(s, [a, b, c]) == Go.Apply(Go.Apply(Go.Apply(s, a).value, b).value, c)
  {
    hide Go.Apply, Go.More;
    Go.JustOne(s, a);
    GoOneMore(s, [a], b);
    GoOneMore(s, [a] + [b], c);
    assert [a] + [b] + [c] == [a, b, c];
  }

  /** From a broken stream back to the head of the loop. */
  lemma GoBreaks(s: Go.State)
    requires s.stage.Reading? && !s.cancelled && Go.Inv(s)
    ensures Go.More(s, [Go.RecvReturns(None), Go.Look, Go.SleepEnds(true)]).Some?
    ensures var s' := Go.More(s, [Go.RecvReturns(None), Go.Look, Go.SleepEnds(true)]).value;
            && Go.Inv(s') && s'.stage.Head? && !s'.cancelled && s'.taken == s.taken && s'.pending == s.pending
            && s'.log == s.log + [Sleep(SleepLength(Go.GO, SleepsSince(s.log)))]
            && SleepsSince(s'.log) == SleepsSince(s.log) + 1
  {
    hide SleepsSince, SleepsRight, SleepLength, NextBackoff;
    var broken := Go.Apply(s, Go.RecvReturns(None)).value;
    var asleep := Go.Apply(broken, Go.Look).value;
    Go.StepKeeps(s, Go.RecvReturns(None));
    Go.StepKeeps(broken, Go.Look);
    Go.StepKeeps(asleep, Go.SleepEnds(true));
    OneMoreEffect(Go.GO, s.log, Sleep(s.backoff));
    ThreeMore(s, Go.RecvReturns(None), Go.Look, Go.SleepEnds(true));
  }

  lemma GoWakes(s: Go.State)
    requires s.stage.Asleep? && !s.cancelled && Go.Inv(s)
    ensures Go.More(s, [Go.SleepEnds(true)]).Some?
    ensures var s' := Go.More(s, [Go.SleepEnds(true)]).value;
            && Go.Inv(s') && s'.stage.Head? && !s'.cancelled && s'.taken == s.taken && s'.pending == s.pending
            && s'.log == s.log
  {
    hide SleepsSince, SleepsRight, SleepLength, NextBackoff;
    Go.StepKeeps(s, Go.SleepEnds(true));
    Go.JustOne(s, Go.SleepEnds(true));
  }

  /** One attempt, from the head of the loop to the next time it is there. */
  lemma GoAttemptRuns(s: Go.State, a: Attempt)
    requires s.stage.Head? && !s.cancelled && Go.Inv(s)
    ensures Go.More(s, GoEventsOf(a)).Some?
    ensures var s' := Go.More(s, GoEventsOf(a)).value;
            && s'.stage.Head? && !s'.cancelled && Go.Inv(s') && s'.taken == s.taken
            && s'.log == s.log + GoAttemptLog(SleepsSince(s.log), a)
            && SleepsSince(s'.log) == RowAfter(SleepsSince(s.log), a) + 1
            && (s'.pending <==> s.pending || (a.Connected? && true in a.messages))
  {
    hide SleepsSince, Doubled, Go.Inv, Go.Apply, Go.More, GoMessages;
    if a.Refused? { GoRefused(s); } else { GoConnected(s, a.messages); }
  }

  lemma GoRefused(s: Go.State)
    requires s.stage.Head? && !s.cancelled && Go.Inv(s)
    ensures Go.More(s, GoEventsOf(Refused)).Some?
    ensures var s' := Go.More(s, GoEventsOf(Refused)).value;
            && s'.stage.Head? && !s'.cancelled && Go.Inv(s') && s'.taken == s.taken && s'.pending == s.pending
            && s'.log == s.log + GoAttemptLog(SleepsSince(s.log), Refused)
            && SleepsSince(s'.log) == SleepsSince(s.log) + 1
  {
    hide SleepsSince, SleepLength, Doubled, Go.Inv, Go.Apply, Go.More;
    var n, dial := SleepsSince(s.log), [Go.Look, Go.OpenCalled, Go.OpenReturns(false)];
    CappedDoubling(Go.GO, n);
    GoOpens(s, false);
    GoSplits(s, dial, [Go.SleepEnds(true)]);
    assert dial + [Go.SleepEnds(true)] == GoEventsOf(Refused);
    GoWakes(Go.More(s, dial).value);
    OneMoreEffect(Go.GO, s.log + [Open], Sleep(SleepLength(Go.GO, n)));
    assert GoAttemptLog(n, Refused) == [Open] + [Sleep(SleepLength(Go.GO, n))];
    ConcatAssoc(s.log, [Open], [Sleep(SleepLength(Go.GO, n))]);
  }

  lemma GoConnected(s: Go.State, messages: seq<bool>)
    requires s.stage.Head? && !s.cancelled && Go.Inv(s)
    ensures Go.More(s, GoEventsOf(Connected(messages))).Some?
    ensures var s' := Go.More(s, GoEventsOf(Connected(messages))).value;
            var n := SleepsSince(s.log);
            && s'.stage.Head? && !s'.cancelled && Go.Inv(s') && s'.taken == s.taken
            && s'.log == s.log + GoAttemptLog(n, Connected(messages))
            && SleepsSince(s'.log) == RowAfter(n, Connected(messages)) + 1
            && (s'.pending <==> s.pending || true in messages)
  {
    hide SleepsSince, SleepLength, Doubled, Go.Inv, Go.Apply, Go.More, GoMessages;
    var row, dial := RowAfter(SleepsSince(s.log), Connected(messages)), [Go.Look, Go.OpenCalled, Go.OpenReturns(true)];
    CappedDoubling(Go.GO, row);
    GoOpens(s, true);
    var reading := Go.More(s, dial).value;
    GoHearsAll(reading, messages);
    GoSplits(s, dial, GoMessages(messages));
    GoSplits(s, dial + GoMessages(messages), [Go.RecvReturns(None), Go.Look, Go.SleepEnds(true)]);
    GoBreaks(Go.More(reading, GoMessages(messages)).value);
    ConcatAssoc(s.log, [Open], Receives(|messages|));
    ConcatAssoc(s.log, [Open] + Receives(|messages|), [Sleep(SleepLength(Go.GO, row))]);
  }

  lemma {:induction false} GoMoreAttempts(s: Go.State, attempts: seq<Attempt>)
    requires s.stage.Head? && !s.cancelled && Go.Inv(s)
    ensures Go.More(s, GoScriptOf(attempts)).Some?
    ensures var s' := Go.More(s, GoScriptOf(attempts)).value;
            && s'.stage.Head? && !s'.cancelled && s'.taken == s.taken
            && s'.log == s.log + GoLogOf(SleepsSince(s.log), attempts)
            && (s'.pending <==> s.pending || AnyChange(attempts))
    decreases attempts
  {
    hide SleepsSince, Go.Inv, Go.Apply, GoEventsOf, GoAttemptLog;
    if attempts == [] {
      assert s.log + GoLogOf(SleepsSince(s.log), attempts) == s.log;
    } else {
      var a := attempts[0];
      GoAttemptRuns(s, a);
      GoSplits(s, GoEventsOf(a), GoScriptOf(attempts[1..]));
      var s' := Go.More(s, GoEventsOf(a)).value;
      GoMoreAttempts(s', attempts[1..]);
      var n := SleepsSince(s.log);
      ConcatAssoc(s.log, GoAttemptLog(n, a), GoLogOf(RowAfter(n, a) + 1, attempts[1..]));
      assert AnyChange(attempts) <==> (a.Connected? && true in a.messages) || AnyChange(attempts[1..]) by {
        AnyChangeStep(attempts);
      }
    }
  }

  lemma AnyChangeStep(attempts: seq<Attempt>)
    requires attempts != []
    ensures AnyChange(attempts)
       <==> (attempts[0].Connected? && true in attempts[0].messages) || AnyChange(attempts[1..])
  {
    assert forall i :: 1 <= i < |attempts| ==> attempts[i] == attempts[1..][i - 1];
    assert forall i :: 0 <= i < |attempts[1..]| ==> attempts[1..][i] == attempts[i + 1];
  }

  /**
   Attempt after attempt without a consumer: every message received, one sleep for each failure, and a
   change waiting in the channel if and only if some message said so.
   */
  lemma GoAttemptsAre(attempts: seq<Attempt>)
    ensures Go.More(Go.START, GoScriptOf(attempts)).Some?
    ensures var s := Go.More(Go.START, GoScriptOf(attempts)).value;
            && s.stage.Head? && s.log == GoLogOf(0, attempts)
            && (s.pending <==> AnyChange(attempts))
            && s.sent == if AnyChange(attempts) then 1 else 0
  {
    hide GoScriptOf, GoLogOf, AnyChange;
    assert Go.Inv(Go.START);
    GoMoreAttempts(Go.START, attempts);
    GoRunKeeps(GoScriptOf(attempts));
    assert [] + GoLogOf(0, attempts) == GoLogOf(0, attempts);
  }
}
