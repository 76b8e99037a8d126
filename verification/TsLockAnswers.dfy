/**
 typescript/src/restart.ts: what acquireLockWithStream answers and what release does, in terms of the events
 of a run alone.
 */
module TsLockAnswers {
  import opened Wrappers
  import opened LockProtocol
  import opened TsLock

  /** One event more: true for the first ACQUIRED, false for a receive that failed before it. */
  function MoreNews(news: Option<bool>, e: Event): Option<bool>
  {
    if news.Some? || !e.Recv? then news
    else if e.result.Err? then Some(false)
    else if e.result.value.Acquired? then Some(true)
    else None
  }

  function News(events: seq<Event>): Option<bool>
  {
    if events == [] then None else MoreNews(News(events[..|events| - 1]), events[|events| - 1])
  }

  predicate ReceiveFailed(events: seq<Event>)
  {
    events != [] && (RecvFails(events[|events| - 1]) || ReceiveFailed(events[..|events| - 1]))
  }

  predicate NewsRight(s: Session, news: Option<bool>, failed: bool)
  {
    && s.acquired == news && (s.gotAcquired <==> news.Some? && news.value)
    && (s.receiving <==> !failed) && (failed ==> news.Some?) && (news.Some? && !news.value ==> failed)
  }

  lemma HearingNews(s: Session, m: Message)
    ensures var s' := Hearing(s, m);
            && (m.Acquired? ==> s'.gotAcquired)
            && (!m.Acquired? ==> s'.gotAcquired == s.gotAcquired)
            && s'.acquired == if m.Acquired? && !s.gotAcquired then Some(true) else s.acquired
  {
    match m
    case Acquired(_, _) =>
    case TtlExtended(_) =>
    case QueuePosition =>
  }

  lemma FailingNews(s: Session, f: Failure)
    ensures var s' := Failing(s, f);
            && !s'.receiving && s'.gotAcquired == s.gotAcquired
            && s'.acquired == if s.gotAcquired then s.acquired else Some(false)
  {}

  lemma OthersBringNoNews(s: Session, e: Event)
    requires !e.Recv?
    ensures var s' := Step(s, e);
            s'.receiving == s.receiving && s'.gotAcquired == s.gotAcquired && s'.acquired == s.acquired
  {
    hide Hearing, Failing, Ticking, Settling, Closing;
    match e
    case Tick(_) =>
    case AbortSignal =>
    case Settle =>
    case ReleaseCall =>
    case ReleaseReturns =>
  }

  lemma NewsStep(s: Session, e: Event, news: Option<bool>, failed: bool)
    requires NewsRight(s, news, failed)
    ensures NewsRight(Step(s, e), MoreNews(news, e), failed || RecvFails(e))
  {
    hide Hearing, Failing, Ticking, Settling, Closing;
    match e
    case Recv(Ok(m)) => HearingNews(s, m);
    case Recv(Err(f)) => FailingNews(s, f);
    case _ => OthersBringNoNews(s, e);
  }

  /** The receive loop hears everything up to its first failure, and the first ACQUIRED or failure is the news. */
  lemma {:induction false} HearsTheNews(hasSignal: bool, aborted: bool, events: seq<Event>)
    ensures NewsRight(Run(Begin(hasSignal, aborted), events), News(events), ReceiveFailed(events))
  {
    hide NewsRight, MoreNews, RecvFails, Step;
    var s0 := Begin(hasSignal, aborted);
    if events == [] {
      NothingHeard(hasSignal, aborted);
    } else {
      var before := events[..|events| - 1];
      HearsTheNews(hasSignal, aborted, before);
      NewsStep(Run(s0, before), events[|events| - 1], News(before), ReceiveFailed(before));
    }
  }

  lemma NothingHeard(hasSignal: bool, aborted: bool)
    ensures NewsRight(Begin(hasSignal, aborted), None, false)
  {}

  predicate AbortedAmong(hasSignal: bool, aborted: bool, events: seq<Event>)
  {
    hasSignal && (aborted || AbortSignal in events)
  }

  lemma FlagsStep(s: Session, e: Event)
    ensures Step(s, e).aborted <==> s.aborted || (s.hasSignal && e.AbortSignal?)
    ensures Step(s, e).hasSignal == s.hasSignal
    ensures Step(s, e).released <==> s.released || (e.ReleaseCall? && s.outcome.Holds?)
  {
    hide Hearing, Failing, Ticking, Settling, Closing;
    if e.Recv? { RecvLeavesFlags(s, e.result); }
  }

  predicate SameFlags(s: Session, s': Session)
  {
    s'.aborted == s.aborted && s'.hasSignal == s.hasSignal && s'.released == s.released
  }

  lemma HearingLeavesFlags(s: Session, m: Message)
    ensures SameFlags(s, Hearing(s, m))
  {
    hide Hearing;
  }

  lemma FailingLeavesFlags(s: Session, f: Failure)
    ensures SameFlags(s, Failing(s, f))
  {
    hide Failing;
  }

  lemma RecvLeavesFlags(s: Session, result: Result<Message, Failure>)
    ensures SameFlags(s, Step(s, Recv(result)))
  {
    hide Hearing, Failing, SameFlags;
    assert SameFlags(s, s) by { Reflexive(s); }
    if result.Ok? { HearingLeavesFlags(s, result.value); } else { FailingLeavesFlags(s, result.error); }
  }

  lemma Reflexive(s: Session)
    ensures SameFlags(s, s)
  {}

  lemma {:induction false} AbortedIs(hasSignal: bool, aborted: bool, events: seq<Event>)
    ensures var s := Run(Begin(hasSignal, aborted), events);
            (s.aborted <==> AbortedAmong(hasSignal, aborted, events)) && s.hasSignal == hasSignal
  {
    hide Step;
    if events != [] {
      var before := events[..|events| - 1];
      AbortedIs(hasSignal, aborted, before);
      FlagsStep(Run(Begin(hasSignal, aborted), before), events[|events| - 1]);
      assert events == before + [events[|events| - 1]];
    }
  }

  /**
   A lock is held only after an ACQUIRED message, and acquiring fails only after an abort or a receive that
   failed before one; while neither happened it is undecided.
   */
  lemma OutcomeHasItsReason(hasSignal: bool, aborted: bool, events: seq<Event>)
    ensures match Run(Begin(hasSignal, aborted), events).outcome
            case Pending => !AbortedAmong(hasSignal, aborted, events)
            case Holds => News(events) == Some(true)
            case _ => AbortedAmong(hasSignal, aborted, events) || News(events) == Some(false)
  {
    hide Run, WireRight, News, ReceiveFailed;
    BeginHolds(hasSignal, aborted);
    RunKeeps(Begin(hasSignal, aborted), events);
    HearsTheNews(hasSignal, aborted, events);
    AbortedIs(hasSignal, aborted, events);
  }

  /** What an undecided acquisition answers: to the news, and to an abort. */
  lemma Answers(hasSignal: bool, aborted: bool, events: seq<Event>)
    requires Run(Begin(hasSignal, aborted), events).outcome.Pending?
    ensures var s0 := Begin(hasSignal, aborted);
            var s := Run(s0, events);
            && (News(events) == Some(true) ==> Run(s0, events + [Settle]) == s.(outcome := Holds))
            && (News(events) == Some(false) ==>
                  var s' := Run(s0, events + [Settle, Settle]);
                  s'.outcome.Throws? && s'.sendClosed == hasSignal
                  && s'.calls == if hasSignal then s.calls + [End] else s.calls)
            && (News(events).None? ==> Run(s0, events + [Settle]) == s)
            && (hasSignal ==>
                  var s' := Run(s0, events + [AbortSignal, Settle]);
                  s'.outcome.Throws? && s'.aborted && s'.sendClosed && s'.calls == s.calls + [End])
  {
    hide Run, WireRight, News, ReceiveFailed, AbortedAmong;
    var s0 := Begin(hasSignal, aborted);
    var s := Run(s0, events);
    BeginHolds(hasSignal, aborted);
    RunKeeps(s0, events);
    HearsTheNews(hasSignal, aborted, events);
    AbortedIs(hasSignal, aborted, events);
    RunSplits(s0, events, [Settle]);
    RunOne(s, Settle);
    RunSplits(s0, events, [Settle, Settle]);
    RunTwo(s, Settle, Settle);
    RunSplits(s0, events, [AbortSignal, Settle]);
    RunTwo(s, AbortSignal, Settle);
  }

  /** release on a lock that is held: the timer stops, the stream is ended, and a second call does nothing. */
  lemma ReleaseActs(hasSignal: bool, aborted: bool, events: seq<Event>)
    ensures var s0 := Begin(hasSignal, aborted);
            var s, s' := Run(s0, events), Run(s0, events + [ReleaseCall]);
            && (s.outcome.Holds? && !s.released ==>
                  && s' == s.(released := true, heartbeat := false, sendClosed := true, calls := s.calls + [End])
                  && End !in s.calls)
            && (!s.outcome.Holds? || s.released ==> s' == s)
            && Run(s0, events + [ReleaseCall, ReleaseCall]) == s'
  {
    hide Run;
    var s0 := Begin(hasSignal, aborted);
    var s := Run(s0, events);
    BeginHolds(hasSignal, aborted);
    RunKeeps(s0, events);
    StreamCalls(hasSignal, aborted, events, 0, 0);
    RunSplits(s0, events, [ReleaseCall]);
    RunOne(s, ReleaseCall);
    RunSplits(s0, events, [ReleaseCall, ReleaseCall]);
    RunTwo(s, ReleaseCall, ReleaseCall);
  }

  predicate ReleaseAmong(s0: Session, events: seq<Event>)
  {
    events != []
    && var before := events[..|events| - 1];
       ReleaseAmong(s0, before) || (events[|events| - 1].ReleaseCall? && Run(s0, before).outcome.Holds?)
  }

  /** released says whether release was called on the lock. */
  lemma {:induction false} ReleasedExactly(hasSignal: bool, aborted: bool, events: seq<Event>)
    ensures var s0 := Begin(hasSignal, aborted); Run(s0, events).released <==> ReleaseAmong(s0, events)
  {
    hide Step;
    if events != [] {
      ReleasedExactly(hasSignal, aborted, events[..|events| - 1]);
      FlagsStep(Run(Begin(hasSignal, aborted), events[..|events| - 1]), events[|events| - 1]);
    }
  }
}
