/**
 python/src/signet_client/restart.py: what becomes of every failure and every message, in terms of the
 actions of a run alone. A failed heartbeat, or a receive that fails once the lock was acquired, is written to
 lost_error unless release began or another was written before; one that fails earlier is raised by acquire_lock.
 */
module PyLockLoss {
  import opened Wrappers
  import opened LockProtocol
  import opened PyLock
  import Runs

  // What the lock tells its owner.

  function Messages(acts: seq<Action>): seq<Message>
  {
    if acts == [] then []
    else
      var n := |acts| - 1;
      Messages(acts[..n]) +
      if acts[n].Recv? && acts[n].result.Ok? then [acts[n].result.value] else []
  }

  predicate Told(s: State, ms: seq<Message>)
  {
    && s.token == LastToken(ms)
    && s.expiresAt == LastStamp(ms)
    && (s.gotAcquired <==> AnyAcquired(ms))
  }

  lemma ToldMore(s: State, result: Result<Message, Failure>, ms: seq<Message>)
    requires Told(s, ms)
    ensures Told(Received(s, result), if result.Ok? then ms + [result.value] else ms)
  {
    hide LastToken, LastStamp, AnyAcquired;
    if result.Ok? {
      OneMore(ms, result.value);
    }
  }

  lemma OthersTellNothing(s: State, a: Action)
    requires Apply(s, a).Some? && !a.Recv?
    ensures var s' := Apply(s, a).value;
            s'.token == s.token && s'.expiresAt == s.expiresAt && s'.gotAcquired == s.gotAcquired
  {
    hide ReleaseStep, Received, MoveTo, PlaceOf;
  }

  lemma ToldStep(s: State, a: Action, ms: seq<Message>)
    requires Apply(s, a).Some? && Told(s, ms)
    ensures Told(Apply(s, a).value, if a.Recv? && a.result.Ok? then ms + [a.result.value] else ms)
  {
    hide QueueStep, LossStep, ReleaseStep, Received, LastToken, LastStamp, AnyAcquired;
    if a.Recv? {
      ToldMore(s, a.result, ms);
    } else {
      OthersTellNothing(s, a);
    }
  }

  /** Token and expiry are those of the last messages that set them; acquired means an ACQUIRED came. */
  lemma {:induction false} TellsLatest(acts: seq<Action>)
    requires IsRun(acts)
    ensures Told(After(acts), Messages(acts))
  {
    assert Told(START, []);
    hide Apply, Told;
    if acts != [] {
      var n := |acts| - 1;
      TellsLatest(acts[..n]);
      ToldStep(After(acts[..n]), acts[n], Messages(acts[..n]));
      assert Messages(acts[..n]) + [] == Messages(acts[..n]);
    }
  }

  // Failures.

  /** The failure of the heartbeat's send. */
  function FailedSend(acts: seq<Action>): Option<Failure>
  {
    if acts == [] then None
    else
      var n := |acts| - 1;
      if acts[n].Beat? && acts[n].sent.Some? then acts[n].sent else FailedSend(acts[..n])
  }

  /** The failure of a receive after an ACQUIRED message. */
  function BrokenStream(acts: seq<Action>): Option<Failure>
  {
    if acts == [] then None
    else
      var n := |acts| - 1;
      if acts[n].Recv? && acts[n].result.Err? && AnyAcquired(Messages(acts[..n])) then Some(acts[n].result.error)
      else BrokenStream(acts[..n])
  }

  function Cause(acts: seq<Action>, who: Who): Option<Failure>
  {
    if who.Heart? then FailedSend(acts) else BrokenStream(acts)
  }

  predicate ReleaseCalled(acts: seq<Action>)
  {
    acts != [] && ((acts[|acts| - 1].Release? && acts[|acts| - 1].step.Call?) || ReleaseCalled(acts[..|acts| - 1]))
  }

  /** Whose report came first, before any call of release. */
  function Writer(acts: seq<Action>): Option<Who>
  {
    if acts == [] then None
    else
      var n := |acts| - 1;
      if Writer(acts[..n]).Some? then Writer(acts[..n])
      else if acts[n].ReportLost? && !ReleaseCalled(acts[..n]) then Some(acts[n].who)
      else None
  }

  predicate Over(p: Place)
  {
    p.Leaving? || p.Gone?
  }

  /** Where the thread is with its failure. */
  predicate OnItsWay(acts: seq<Action>, who: Who, p: Place)
  {
    && (Writer(acts) == Some(who) ==> ReportLost(who) in acts)
    && (SetEvent(who) in acts ==> Writer(acts) == Some(who))
    && match Cause(acts, who)
       case None => !p.Losing? && !p.Reporting? && ReportLost(who) !in acts
       case Some(e) =>
         if ReportLost(who) !in acts then p == Losing(e)
         else if Writer(acts) == Some(who) && SetEvent(who) !in acts then p == Reporting(e)
         else Over(p)
  }

  lemma OneMoreAction(acts: seq<Action>, a: Action, who: Who)
    ensures ReportLost(who) in acts + [a] <==> ReportLost(who) in acts || a == ReportLost(who)
    ensures SetEvent(who) in acts + [a] <==> SetEvent(who) in acts || a == SetEvent(who)
    ensures Writer(acts + [a])
         == if Writer(acts).None? && a.ReportLost? && !ReleaseCalled(acts) then Some(a.who) else Writer(acts)
    ensures ReleaseCalled(acts + [a]) <==> ReleaseCalled(acts) || (a.Release? && a.step.Call?)
    ensures Cause(acts + [a], Heart)
         == if a.Beat? && a.sent.Some? then a.sent else Cause(acts, Heart)
    ensures Cause(acts + [a], Receiver)
         == if a.Recv? && a.result.Err? && AnyAcquired(Messages(acts)) then Some(a.result.error)
            else Cause(acts, Receiver)
  {
    assert (acts + [a])[..|acts|] == acts;
  }

  /** What one step does to the place of a thread that may report; open says that a report would be written. */
  predicate Moves(p: Place, a: Action, p': Place, who: Who, open: bool, gotAcquired: bool)
  {
    if a == ReportLost(who) then p.Losing? && (if open then p' == Reporting(p.failure) else Over(p'))
    else if a == SetEvent(who) then p.Reporting? && Over(p')
    else if who.Heart? && a.Beat? then p.Due? && p' == if a.sent.Some? then Losing(a.sent.value) else Waiting
    else if who.Receiver? && a.Recv? then
      && p.Waiting?
      && (if a.result.Ok? then !p'.Losing? && !p'.Reporting?
          else p' == if gotAcquired then Losing(a.result.error) else Offering(Some(a.result.error)))
    else if p.Losing? || p.Reporting? then p' == p
    else !p'.Losing? && !p'.Reporting? && (Over(p) ==> Over(p'))
  }

  predicate WritesNow(s: State)
  {
    !s.releases.released && s.lostError.None?
  }

  lemma HeartMoves(s: State, a: Action)
    requires Inv(s) && Apply(s, a).Some?
    ensures Moves(s.threads.heart, a, Apply(s, a).value.threads.heart, Heart, WritesNow(s), s.gotAcquired)
  {
    hide ReleaseStep, FirstCallActs, LossRecorded;
  }

  lemma ReceiverMoves(s: State, a: Action)
    requires Inv(s) && Apply(s, a).Some?
    ensures Moves(s.threads.receiver, a, Apply(s, a).value.threads.receiver, Receiver, WritesNow(s), s.gotAcquired)
  {
    hide ReleaseStep, FirstCallActs, LossRecorded;
  }

  lemma ReleasedStep(s: State, a: Action)
    requires Inv(s) && Apply(s, a).Some?
    ensures Apply(s, a).value.releases.released <==> s.releases.released || (a.Release? && a.step.Call?)
  {
    hide QueueStep, LoopStep, LossStep, Handover, LossRecorded;
  }

  lemma {:induction false} ReleasedIs(acts: seq<Action>)
    requires IsRun(acts)
    ensures After(acts).releases.released <==> ReleaseCalled(acts)
  {
    if acts != [] {
      var n := |acts| - 1;
      ReleasedIs(acts[..n]);
      hide Apply, Inv;
      RunKeeps(acts[..n]);
      ReleasedStep(After(acts[..n]), acts[n]);
    }
  }

  /** lost_error is the failure of the thread that reported first, and the event is set when one says so. */
  predicate ErrorRight(s: State, acts: seq<Action>)
  {
    && s.lostError == (if Writer(acts).Some? then Cause(acts, Writer(acts).value) else None)
    && (Writer(acts).Some? ==> s.lostError.Some?)
    && (s.lostEvent <==> SetEvent(Heart) in acts || SetEvent(Receiver) in acts)
  }

  lemma ErrorStep(s: State, a: Action)
    requires Inv(s) && Apply(s, a).Some?
    ensures var s' := Apply(s, a).value;
            && (a.ReportLost? ==> PlaceOf(s.threads, a.who).Losing?)
            && s'.lostError == (if a.ReportLost? && WritesNow(s) then Some(PlaceOf(s.threads, a.who).failure)
                                else s.lostError)
            && (s'.lostEvent <==> s.lostEvent || a.SetEvent?)
  {
    hide ReleaseStep, FirstCallActs, Handover, LossRecorded, MoveTo;
  }

  lemma WayStep(acts: seq<Action>, a: Action, who: Who)
    requires IsRun(acts + [a]) && IsRun(acts) && OnItsWay(acts, who, PlaceOf(After(acts).threads, who))
    requires ErrorRight(After(acts), acts)
    ensures OnItsWay(acts + [a], who, PlaceOf(After(acts + [a]).threads, who))
  {
    hide Runs.Run, Apply, Inv, Messages, AnyAcquired, ReleaseCalled, Writer, Cause;
    Runs.Extend(START, Apply, acts, a);
    RunKeeps(acts);
    TellsLatest(acts);
    ReleasedIs(acts);
    if who.Heart? { HeartMoves(After(acts), a); } else { ReceiverMoves(After(acts), a); }
    OneMoreAction(acts, a, who);
  }

  /** A cause, once there, stays the same. */
  lemma CauseStays(acts: seq<Action>, a: Action, who: Who)
    requires IsRun(acts + [a]) && IsRun(acts) && OnItsWay(acts, who, PlaceOf(After(acts).threads, who))
    requires Cause(acts, who).Some?
    ensures Cause(acts + [a], who) == Cause(acts, who)
  {
    hide Runs.Run, Apply, Inv, Messages, AnyAcquired, ReleaseCalled, Writer, Cause;
    Runs.Extend(START, Apply, acts, a);
    RunKeeps(acts);
    if who.Heart? { HeartMoves(After(acts), a); } else { ReceiverMoves(After(acts), a); }
    OneMoreAction(acts, a, who);
  }

  lemma ReporterIs(a: Action)
    ensures a.SetEvent? ==> a == SetEvent(if a.who.Heart? then Heart else Receiver)
    ensures a.ReportLost? ==> a == ReportLost(if a.who.Heart? then Heart else Receiver)
  {}

  lemma ErrorMore(acts: seq<Action>, a: Action)
    requires IsRun(acts + [a]) && IsRun(acts) && ErrorRight(After(acts), acts)
    requires OnItsWay(acts, Heart, After(acts).threads.heart)
    requires OnItsWay(acts, Receiver, After(acts).threads.receiver)
    ensures ErrorRight(After(acts + [a]), acts + [a])
  {
    hide Runs.Run, Apply, Inv, ReleaseCalled, Writer, Cause;
    Runs.Extend(START, Apply, acts, a);
    RunKeeps(acts);
    ReleasedIs(acts);
    ErrorStep(After(acts), a);
    OneMoreAction(acts, a, Heart);
    OneMoreAction(acts, a, Receiver);
    if Writer(acts).Some? {
      CauseStays(acts, a, Writer(acts).value);
    } else if a == ReportLost(Heart) {
      CauseStays(acts, a, Heart);
    } else if a == ReportLost(Receiver) {
      CauseStays(acts, a, Receiver);
    }
    ReporterIs(a);
  }

  /**
   Every failure, on every run: on its way, or reported. lost_error and lost_event are functions of the
   actions: the failure of the thread that reported first before release, and whether it went on to the event.
   */
  lemma {:induction false} FailureIsOnItsWay(acts: seq<Action>)
    requires IsRun(acts)
    ensures OnItsWay(acts, Heart, After(acts).threads.heart)
    ensures OnItsWay(acts, Receiver, After(acts).threads.receiver)
    ensures ErrorRight(After(acts), acts)
  {
    if acts != [] {
      var n := |acts| - 1;
      FailureIsOnItsWay(acts[..n]);
      assert acts == acts[..n] + [acts[n]];
      hide OnItsWay, ErrorRight, Apply;
      WayStep(acts[..n], acts[n], Heart);
      WayStep(acts[..n], acts[n], Receiver);
      ErrorMore(acts[..n], acts[n]);
    }
  }

  lemma {:induction false} NotReportedYet(acts: seq<Action>, who: Who)
    ensures Writer(acts).None? && !ReleaseCalled(acts) ==> ReportLost(who) !in acts
  {
    if acts != [] {
      NotReportedYet(acts[..|acts| - 1], who);
      assert acts == acts[..|acts| - 1] + [acts[|acts| - 1]];
    }
  }

  /** Unless release began or another failure was written before, two steps of its own thread record a failure. */
  lemma FailureReachesOwner(acts: seq<Action>, who: Who)
    requires IsRun(acts) && Cause(acts, who).Some? && !ReleaseCalled(acts) && Writer(acts).None?
    ensures var lost := acts + [ReportLost(who)] + [SetEvent(who)];
            IsRun(lost) && After(lost).lostError == Cause(acts, who) && After(lost).lostEvent
  {
    hide Runs.Run, Inv, Cause, Writer, ReleaseCalled;
    FailureIsOnItsWay(acts);
    NotReportedYet(acts, who);
    ReleasedIs(acts);
    Runs.Extend(START, Apply, acts, ReportLost(who));
    Runs.Extend(START, Apply, acts + [ReportLost(who)], SetEvent(who));
  }

  // What acquire_lock answers.

  /** One action more; a receive after the first ACQUIRED or the first failure brings no news. */
  function MoreNews(news: Option<Option<Failure>>, a: Action): Option<Option<Failure>>
  {
    if news.Some? || !a.Recv? then news
    else if a.result.Err? then Some(Some(a.result.error))
    else if a.result.value.Acquired? then Some(None)
    else None
  }

  /** The news for the acquiring thread: the first ACQUIRED message, or the receive that failed before it. */
  function News(acts: seq<Action>): Option<Option<Failure>>
  {
    if acts == [] then None else MoreNews(News(acts[..|acts| - 1]), acts[|acts| - 1])
  }

  function Answer(news: Option<Failure>): Caller
  {
    if news.Some? then Failed(news.value) else Holding
  }

  /** The receive loop goes on only if it was the lock that it handed over. */
  predicate Handed(s: State)
  {
    !s.threads.receiver.Offering? && (s.threads.receiver.Waiting? ==> s.gotAcquired)
  }

  /** The news is owed by the receive loop, or in the queue, or taken by the acquiring thread. */
  predicate NewsRight(s: State, news: Option<Option<Failure>>)
  {
    match news
    case None => s.threads.receiver.Waiting? && s.queue == [] && s.caller.Getting?
    case Some(v) =>
      || (s.threads.receiver == Offering(v) && s.queue == [] && s.caller.Getting?)
      || (Handed(s) && s.queue == [v] && s.caller.Getting?)
      || (Handed(s) && s.queue == [] && s.caller == Answer(v))
  }

  lemma QueueNews(s: State, a: Action, news: Option<Option<Failure>>)
    requires Inv(s) && QueueStep(s, a).Some? && NewsRight(s, news) && (s.gotAcquired <==> news == Some(None))
    ensures NewsRight(QueueStep(s, a).value, news) && QueueStep(s, a).value.gotAcquired == s.gotAcquired
  {
    hide FirstCallActs, LossRecorded;
    if news.Some? {
      assert [news.value][1..] == [] && [] + [news.value] == [news.value];
    }
  }

  lemma LoopNews(s: State, a: Action, news: Option<Option<Failure>>)
    requires LoopStep(s, a).Some? && NewsRight(s, news) && (s.gotAcquired <==> news == Some(None))
    ensures var s' := LoopStep(s, a).value;
            NewsRight(s', MoreNews(news, a)) && (s'.gotAcquired <==> MoreNews(news, a) == Some(None))
  {}

  lemma LossNews(s: State, a: Action, news: Option<Option<Failure>>)
    requires LossStep(s, a).Some? && NewsRight(s, news)
    ensures NewsRight(LossStep(s, a).value, news) && LossStep(s, a).value.gotAcquired == s.gotAcquired
  {}

  lemma NewsStep(s: State, a: Action, news: Option<Option<Failure>>)
    requires Inv(s) && Apply(s, a).Some? && NewsRight(s, news) && (s.gotAcquired <==> news == Some(None))
    ensures var s' := Apply(s, a).value;
            NewsRight(s', MoreNews(news, a)) && (s'.gotAcquired <==> MoreNews(news, a) == Some(None))
  {
    hide ReleaseStep, Inv, QueueStep, LoopStep, LossStep;
    match a
    case Get | Put => QueueNews(s, a, news);
    case Recv(_) | RecvExits | TimesOut | Beat(_) | HeartStops => LoopNews(s, a, news);
    case ReportLost(_) | SetEvent(_) => LossNews(s, a, news);
    case Release(_) =>
  }

  lemma {:induction false} NewsIs(acts: seq<Action>)
    requires IsRun(acts)
    ensures NewsRight(After(acts), News(acts))
    ensures After(acts).gotAcquired <==> News(acts) == Some(None)
  {
    assert NewsRight(START, None);
    hide Apply, Inv, NewsRight, MoreNews;
    if acts != [] {
      var n := |acts| - 1;
      NewsIs(acts[..n]);
      RunKeeps(acts[..n]);
      NewsStep(After(acts[..n]), acts[n], News(acts[..n]));
    }
  }

  /**
   acquire_lock answers with the first news: the lock after an ACQUIRED message, the error of a receive that
   failed before one; while it waits, the answer is at most two steps away.
   */
  lemma AnswersFirstNews(acts: seq<Action>) returns (more: seq<Action>)
    requires IsRun(acts)
    ensures After(acts).caller.Holding? ==> News(acts) == Some(None)
    ensures After(acts).caller.Failed? ==> News(acts) == Some(Some(After(acts).caller.failure))
    ensures more in {[Get], [Put] + [Get]}
    ensures After(acts).caller.Getting? && News(acts).Some? ==>
              IsRun(acts + more) && After(acts + more).caller == Answer(News(acts).value)
  {
    hide Runs.Run, Inv, News;
    NewsIs(acts);
    var s := After(acts);
    more := [Get];
    if s.caller.Getting? && News(acts).Some? {
      var offered := acts;
      if s.threads.receiver.Offering? {
        Runs.Extend(START, Apply, acts, Put);
        offered := acts + [Put];
        more := [Put] + [Get];
        assert [] + [News(acts).value] == [News(acts).value];
      }
      Runs.Extend(START, Apply, offered, Get);
      assert acts + more == offered + [Get];
    }
  }
}
