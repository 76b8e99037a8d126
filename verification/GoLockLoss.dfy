/**
 go/restart.go: what becomes of every failure. A failed heartbeat, or a receive that fails once the lock was
 acquired, is reported unless Release was called before; a receive that fails earlier fails AcquireLock. All is
 said in terms of the actions of a run alone.
 */
module GoLockLoss {
  import opened Wrappers
  import opened LockProtocol
  import opened GoLock
  import opened GoLockRuns
  import Runs

  /** The failure of the heartbeat's send. */
  function FailedSend(acts: seq<Action>): Option<Failure>
  {
    if acts == [] then None
    else
      var n := |acts| - 1;
      if acts[n].Tick? && acts[n].sent.Some? then acts[n].sent else FailedSend(acts[..n])
  }

  /** The failure of a receive after an ACQUIRED message. */
  function BrokenStream(acts: seq<Action>): Option<Failure>
  {
    if acts == [] then None
    else
      var n := |acts| - 1;
      if acts[n].Recv? && acts[n].result.Err? && AnyAcquired(Messages(acts[..n])) then Some(acts[n].result.error)
      else BrokenStream(acts[..n])
  }

  function Cause(acts: seq<Action>, who: Who): Option<Failure>
  {
    if who.Heart? then FailedSend(acts) else BrokenStream(acts)
  }

  predicate ReleaseCalled(acts: seq<Action>)
  {
    acts != [] && ((acts[|acts| - 1].Release? && acts[|acts| - 1].step.Call?) || ReleaseCalled(acts[..|acts| - 1]))
  }

  /** Its check came before any call of Release. */
  predicate CheckedInTime(acts: seq<Action>, who: Who)
  {
    acts != [] && var n := |acts| - 1;
    CheckedInTime(acts[..n], who) || (acts[n] == Check(who) && !ReleaseCalled(acts[..n]))
  }

  predicate Over(p: Place)
  {
    p.Leaving? || p.Gone?
  }

  /** Where the goroutine is with its failure. */
  predicate OnItsWay(acts: seq<Action>, who: Who, p: Place)
  {
    match Cause(acts, who)
    case None => !p.Losing? && !p.Reporting? && Check(who) !in acts && Report(who) !in acts
    case Some(e) =>
      && (Check(who) !in acts ==> p == Losing(e))
      && (Check(who) in acts && !CheckedInTime(acts, who) ==> Over(p))
      && (Report(who) in acts ==> CheckedInTime(acts, who))
      && (CheckedInTime(acts, who) ==>
            && Check(who) in acts
            && if Report(who) in acts then Over(p) else p == Reporting(e))
  }

  lemma OneMoreAction(acts: seq<Action>, a: Action, who: Who)
    ensures Check(who) in acts + [a] <==> Check(who) in acts || a == Check(who)
    ensures Report(who) in acts + [a] <==> Report(who) in acts || a == Report(who)
    ensures CheckedInTime(acts + [a], who)
       <==> CheckedInTime(acts, who) || (a == Check(who) && !ReleaseCalled(acts))
    ensures ReleaseCalled(acts + [a]) <==> ReleaseCalled(acts) || (a.Release? && a.step.Call?)
    ensures Cause(acts + [a], Heart)
         == if a.Tick? && a.sent.Some? then a.sent else Cause(acts, Heart)
    ensures Cause(acts + [a], Receiver)
         == if a.Recv? && a.result.Err? && AnyAcquired(Messages(acts)) then Some(a.result.error)
            else Cause(acts, Receiver)
  {
    assert (acts + [a])[..|acts|] == acts;
  }

  /** What one step does to the place of a goroutine that may report. */
  predicate Moves(p: Place, a: Action, p': Place, who: Who, released: bool, gotAcquired: bool)
  {
    if a == Check(who) then p.Losing? && (if released then Over(p') else p' == Reporting(p.failure))
    else if a == Report(who) then p.Reporting? && Over(p')
    else if who.Heart? && a.Tick? then p.Due? && p' == if a.sent.Some? then Losing(a.sent.value) else Waiting
    else if who.Receiver? && a.Recv? then
      && p.Waiting?
      && (if a.result.Ok? then !p'.Losing? && !p'.Reporting?
          else p' == if gotAcquired then Losing(a.result.error) else Offering(Some(a.result.error)))
    else if p.Losing? || p.Reporting? then p' == p
    else !p'.Losing? && !p'.Reporting? && (Over(p) ==> Over(p'))
  }

  lemma HeartMoves(s: State, a: Action)
    requires Inv(s) && Apply(s, a).Some?
    ensures Moves(s.threads.heart, a, Apply(s, a).value.threads.heart, Heart, s.releases.released, s.gotAcquired)
  {
    hide ReleaseStep, FirstCallActs, Loss, ReceiverStep, Reported, HeartStep;
    if a.Parks? || a.TickChosen? || a.Tick? || a.HeartStops? {
      HeartStepMoves(s, a);
    }
  }

  lemma HeartStepMoves(s: State, a: Action)
    requires HeartStep(s, a).Some?
    ensures Moves(s.threads.heart, a, HeartStep(s, a).value.threads.heart, Heart, s.releases.released, s.gotAcquired)
  {}

  lemma ReceiverMoves(s: State, a: Action)
    requires Inv(s) && Apply(s, a).Some?
    ensures Moves(s.threads.receiver, a, Apply(s, a).value.threads.receiver, Receiver, s.releases.released,
                  s.gotAcquired)
  {
    hide ReleaseStep, FirstCallActs, Loss, HeartStep, Reported;
    if a.CallerTakes? || a.CallerCancels? || a.TakeLost? {
      assert CallerStep(s, a).value.threads.receiver == s.threads.receiver;
    }
    if a.Parks? || a.TickChosen? || a.Tick? || a.HeartStops? {
      HeartLeavesReceiver(s, a);
    }
  }

  lemma HeartLeavesReceiver(s: State, a: Action)
    requires HeartStep(s, a).Some?
    ensures HeartStep(s, a).value.threads.receiver == s.threads.receiver
  {}

  lemma {:induction false} ReleasedIs(acts: seq<Action>)
    requires IsRun(acts)
    ensures After(acts).releases.released <==> ReleaseCalled(acts)
  {
    if acts != [] {
      var n := |acts| - 1;
      ReleasedIs(acts[..n]);
      hide Runs.Run;
      Runs.Extend(START, Apply, acts[..n], acts[n]);
      assert acts == acts[..n] + [acts[n]];
      RunKeeps(acts[..n]);
      ReleasedStep(After(acts[..n]), acts[n]);
    }
  }

  lemma ReleasedStep(s: State, a: Action)
    requires Inv(s) && Apply(s, a).Some?
    ensures Apply(s, a).value.releases.released <==> s.releases.released || (a.Release? && a.step.Call?)
  {
    hide CallerStep, ReceiverStep, HeartStep, ReportStep, Handover, Ownership, Loss;
  }

  lemma {:induction false} InTimeIsChecked(acts: seq<Action>, who: Who)
    ensures CheckedInTime(acts, who) ==> Check(who) in acts
  {
    if acts != [] {
      InTimeIsChecked(acts[..|acts| - 1], who);
      assert acts == acts[..|acts| - 1] + [acts[|acts| - 1]];
    }
  }

  lemma WayStep(acts: seq<Action>, a: Action, who: Who)
    requires IsRun(acts + [a]) && IsRun(acts) && OnItsWay(acts, who, PlaceOf(After(acts).threads, who))
    ensures OnItsWay(acts + [a], who, PlaceOf(After(acts + [a]).threads, who))
  {
    hide Runs.Run, Apply, Inv, Messages, AnyAcquired, ReleaseCalled, CheckedInTime, Cause;
    Runs.Extend(START, Apply, acts, a);
    RunKeeps(acts);
    TellsLatest(acts);
    ReleasedIs(acts);
    if who.Heart? { HeartMoves(After(acts), a); } else { ReceiverMoves(After(acts), a); }
    OneMoreAction(acts, a, who);
    InTimeIsChecked(acts, who);
  }

  /** Every failure, on every run: unreported yet and on its way, or reported, or checked after a Release. */
  lemma {:induction false} FailureIsOnItsWay(acts: seq<Action>, who: Who)
    requires IsRun(acts)
    ensures OnItsWay(acts, who, PlaceOf(After(acts).threads, who))
  {
    if acts != [] {
      var n := |acts| - 1;
      FailureIsOnItsWay(acts[..n], who);
      assert acts == acts[..n] + [acts[n]];
      hide OnItsWay, Apply;
      WayStep(acts[..n], acts[n], who);
    }
  }

  /** The failure whose report came first. */
  function FirstReported(acts: seq<Action>): Option<Failure>
  {
    if acts == [] then None
    else
      var n := |acts| - 1;
      if FirstReported(acts[..n]).Some? then FirstReported(acts[..n])
      else if acts[n].Report? then Cause(acts[..n], acts[n].who)
      else None
  }

  predicate LostRight(s: State, acts: seq<Action>)
  {
    match FirstReported(acts)
    case None => !s.lostOnce && s.lost == [] && s.collected == 0 && TakeLost !in acts
    case Some(e) => s.lostOnce && s.lost == if TakeLost in acts then [] else [e]
  }

  predicate LostMoves(s: State, a: Action, s': State)
  {
    && s'.collected == s.collected + (if a.TakeLost? then 1 else 0)
    && if a.Report? then
         && PlaceOf(s.threads, a.who).Reporting? && s'.lostOnce
         && s'.lost == if s.lostOnce then s.lost else [PlaceOf(s.threads, a.who).failure]
       else
         && s'.lostOnce == s.lostOnce
         && if a.TakeLost? then |s.lost| == 1 && s'.lost == [] else s'.lost == s.lost
  }

  lemma LostStep(s: State, a: Action)
    requires Inv(s) && Apply(s, a).Some?
    ensures LostMoves(s, a, Apply(s, a).value) && (s.lostOnce || s.lost == [])
  {
    hide ReleaseStep, FirstCallActs, Handover, Ownership, ReceiverStep, HeartStep, ReportStep;
    if a.Parks? || a.TickChosen? || a.Tick? || a.HeartStops? {
      HeartLeavesLost(s, a);
    } else if a.Check? || a.Report? {
      ReportMovesLost(s, a);
    }
  }

  lemma HeartLeavesLost(s: State, a: Action)
    requires HeartStep(s, a).Some?
    ensures var s' := HeartStep(s, a).value;
            s'.lost == s.lost && s'.lostOnce == s.lostOnce && s'.collected == s.collected
  {}

  lemma ReportMovesLost(s: State, a: Action)
    requires Loss(s) && ReportStep(s, a).Some?
    ensures LostMoves(s, a, ReportStep(s, a).value)
  {
    hide MoveTo, PlaceOf;
  }

  /**
   The lost channel as a function of the actions: it holds the failure of the goroutine that reported first,
   until the owner takes it.
   */
  lemma {:induction false} LostIsFirstReported(acts: seq<Action>)
    requires IsRun(acts)
    ensures LostRight(After(acts), acts)
  {
    assert LostRight(START, []);
    hide Apply, Inv, OnItsWay;
    if acts != [] {
      var n := |acts| - 1;
      LostIsFirstReported(acts[..n]);
      RunKeeps(acts[..n]);
      assert acts == acts[..n] + [acts[n]];
      LostStep(After(acts[..n]), acts[n]);
      if acts[n].Report? { ReportsItsCause(acts[..n], acts[n].who); }
    }
  }

  lemma ReportsItsCause(acts: seq<Action>, who: Who)
    requires IsRun(acts) && PlaceOf(After(acts).threads, who).Reporting?
    ensures Cause(acts, who) == Some(PlaceOf(After(acts).threads, who).failure)
  {
    hide Runs.Run, Cause, CheckedInTime;
    FailureIsOnItsWay(acts, who);
  }

  /**
   A failure while the lock is held reaches the owner: unless Release was called or another failure was
   reported before, the goroutine's own steps put it into the lost channel.
   */
  lemma FailureReachesOwner(acts: seq<Action>, who: Who) returns (more: seq<Action>)
    requires IsRun(acts) && Cause(acts, who).Some? && !ReleaseCalled(acts) && FirstReported(acts).None?
    ensures more == if Check(who) in acts then [Report(who)] else [Check(who)] + [Report(who)]
    ensures IsRun(acts + more) && After(acts + more).lost == [Cause(acts, who).value]
  {
    hide Runs.Run, Inv, Cause, Loss;
    FailureIsOnItsWay(acts, who);
    LostIsFirstReported(acts);
    ReleasedIs(acts);
    NotReportedYet(acts, who);
    InTimeOtherwise(acts, who);
    more := if Check(who) in acts then [Report(who)] else [Check(who)] + [Report(who)];
    var checked := acts;
    if Check(who) !in acts {
      Runs.Extend(START, Apply, acts, Check(who));
      checked := acts + [Check(who)];
    }
    Runs.Extend(START, Apply, checked, Report(who));
    assert acts + more == checked + [Report(who)];
  }

  lemma {:induction false} NotReportedYet(acts: seq<Action>, who: Who)
    requires IsRun(acts) && FirstReported(acts).None?
    ensures Report(who) !in acts
  {
    hide Apply, Inv, OnItsWay, Cause;
    if acts != [] {
      var n := |acts| - 1;
      NotReportedYet(acts[..n], who);
      assert acts == acts[..n] + [acts[n]];
      RunKeeps(acts[..n]);
      if acts[n].Report? {
        LostStep(After(acts[..n]), acts[n]);
        ReportsItsCause(acts[..n], acts[n].who);
      }
    }
  }

  lemma {:induction false} InTimeOtherwise(acts: seq<Action>, who: Who)
    ensures !ReleaseCalled(acts) && Check(who) in acts ==> CheckedInTime(acts, who)
  {
    if acts != [] {
      InTimeOtherwise(acts[..|acts| - 1], who);
      assert acts == acts[..|acts| - 1] + [acts[|acts| - 1]];
    }
  }

  // What AcquireLock answers.

  /** One action more; a receive after the first ACQUIRED or the first failure brings no news. */
  function MoreNews(news: Option<Option<Failure>>, a: Action): Option<Option<Failure>>
  {
    if news.Some? || !a.Recv? then news
    else if a.result.Err? then Some(Some(a.result.error))
    else if a.result.value.Acquired? then Some(None)
    else None
  }

  /** The news for the caller: the first ACQUIRED message, or the receive that failed before it. */
  function News(acts: seq<Action>): Option<Option<Failure>>
  {
    if acts == [] then None else MoreNews(News(acts[..|acts| - 1]), acts[|acts| - 1])
  }

  function Answer(news: Option<Failure>): Caller
  {
    if news.Some? then Failed(news.value) else Holding
  }

  predicate Undecided(c: Caller)
  {
    c.Selecting? || c.Cancelled?
  }

  /** The receive loop goes on only if it was the lock that it handed over. */
  predicate Handed(s: State)
  {
    !s.threads.receiver.Offering? && (s.threads.receiver.Waiting? ==> s.gotAcquired)
  }

  /** The news is owed by the receive loop, or in the channel, or taken by the caller. */
  predicate NewsRight(s: State, news: Option<Option<Failure>>)
  {
    match news
    case None => s.threads.receiver.Waiting? && s.acquired == [] && Undecided(s.caller)
    case Some(v) =>
      || (s.threads.receiver == Offering(v) && s.acquired == [] && Undecided(s.caller))
      || (Handed(s) && s.acquired == [v] && Undecided(s.caller))
      || (Handed(s) && s.acquired == [] && s.caller == Answer(v))
  }

  lemma NewsStep(s: State, a: Action, news: Option<Option<Failure>>)
    requires Inv(s) && Apply(s, a).Some? && NewsRight(s, news) && (s.gotAcquired <==> news == Some(None))
    ensures var s' := Apply(s, a).value;
            NewsRight(s', MoreNews(news, a)) && (s'.gotAcquired <==> MoreNews(news, a) == Some(None))
  {
    hide ReleaseStep, Inv, HeartStep, ReportStep, CallerStep, ReceiverStep;
    match a
    case CallerTakes | CallerCancels | TakeLost => CallerNews(s, a, news);
    case Recv(_) | PutAcquired | RecvExits => ReceiverNews(s, a, news);
    case Check(_) | Report(_) => ReportNews(s, a, news);
    case Parks | TickChosen | Tick(_) | HeartStops =>
      HeartLeavesReceiver(s, a);
      HeartLeavesCaller(s, a);
    case _ =>
  }

  lemma CallerNews(s: State, a: Action, news: Option<Option<Failure>>)
    requires CallerStep(s, a).Some? && NewsRight(s, news)
    ensures NewsRight(CallerStep(s, a).value, news)
  {
    if news.Some? {
      assert [news.value][1..] == [];
    }
  }

  lemma ReceiverNews(s: State, a: Action, news: Option<Option<Failure>>)
    requires Inv(s) && ReceiverStep(s, a).Some? && NewsRight(s, news) && (s.gotAcquired <==> news == Some(None))
    ensures var s' := ReceiverStep(s, a).value;
            NewsRight(s', MoreNews(news, a)) && (s'.gotAcquired <==> MoreNews(news, a) == Some(None))
  {
    hide FirstCallActs, Ownership, Loss;
    if news.Some? {
      assert [] + [news.value] == [news.value];
    }
  }

  lemma ReportNews(s: State, a: Action, news: Option<Option<Failure>>)
    requires Inv(s) && ReportStep(s, a).Some? && NewsRight(s, news)
    ensures NewsRight(ReportStep(s, a).value, news)
  {
    hide FirstCallActs, Ownership, Loss, Reported;
  }

  lemma HeartLeavesCaller(s: State, a: Action)
    requires HeartStep(s, a).Some?
    ensures HeartStep(s, a).value.acquired == s.acquired && HeartStep(s, a).value.caller == s.caller
    ensures HeartStep(s, a).value.ctxDone == s.ctxDone
  {}

  lemma {:induction false} NewsIs(acts: seq<Action>)
    requires IsRun(acts)
    ensures NewsRight(After(acts), News(acts))
    ensures After(acts).gotAcquired <==> News(acts) == Some(None)
  {
    assert NewsRight(START, None);
    hide Apply, Inv, NewsRight, MoreNews;
    if acts != [] {
      var n := |acts| - 1;
      NewsIs(acts[..n]);
      RunKeeps(acts[..n]);
      NewsStep(After(acts[..n]), acts[n], News(acts[..n]));
    }
  }

  /**
   acquireLock answers with the first news: the lock after an ACQUIRED message, the error of a receive that
   failed before one; while it waits, the answer is at most two steps away.
   */
  lemma AnswersFirstNews(acts: seq<Action>) returns (more: seq<Action>)
    requires IsRun(acts)
    ensures After(acts).caller.Holding? ==> News(acts) == Some(None)
    ensures After(acts).caller.Failed? ==> News(acts) == Some(Some(After(acts).caller.failure))
    ensures more in {[CallerTakes], [PutAcquired] + [CallerTakes]}
    ensures After(acts).caller.Selecting? && News(acts).Some? ==>
              IsRun(acts + more) && After(acts + more).caller == Answer(News(acts).value)
  {
    hide Runs.Run, Inv, Handover, Ownership, Loss, News;
    NewsIs(acts);
    var s := After(acts);
    more := [CallerTakes];
    if s.caller.Selecting? && News(acts).Some? {
      var offered := acts;
      if s.threads.receiver.Offering? {
        Runs.Extend(START, Apply, acts, PutAcquired);
        offered := acts + [PutAcquired];
        more := [PutAcquired] + [CallerTakes];
        assert [] + [News(acts).value] == [News(acts).value];
      }
      Runs.Extend(START, Apply, offered, CallerTakes);
      assert acts + more == offered + [CallerTakes];
    }
  }

  lemma DoneStep(s: State, a: Action)
    requires Apply(s, a).Some?
    ensures Apply(s, a).value.ctxDone <==> s.ctxDone || a.CtxCancel?
    ensures Apply(s, a).value.caller.Cancelled? ==> s.caller.Cancelled? || s.ctxDone
  {
    hide ReceiverStep, ReleaseStep, HeartStep, ReportStep;
    if a.Parks? || a.TickChosen? || a.Tick? || a.HeartStops? {
      HeartLeavesCaller(s, a);
    }
  }

  /** acquireLock gives up exactly where the context is done while it waits. */
  lemma {:induction false} GivesUpExactly(acts: seq<Action>)
    requires IsRun(acts)
    ensures After(acts).ctxDone <==> CtxCancel in acts
    ensures After(acts).caller.Cancelled? ==> CtxCancel in acts
    ensures After(acts).caller.Selecting? ==>
              (IsRun(acts + [CallerCancels]) <==> CtxCancel in acts)
  {
    if acts != [] {
      var n := |acts| - 1;
      GivesUpExactly(acts[..n]);
      assert acts == acts[..n] + [acts[n]];
      DoneStep(After(acts[..n]), acts[n]);
    }
    hide Runs.Run;
    Runs.Extend(START, Apply, acts, CallerCancels);
  }
}
