/**
 python/src/signet_client/restart.py: the receive thread, the heartbeat thread, the acquiring thread
 and any number of release calls, each mutex section one atomic step. Unlike the Go client,
 _report_lost tests and writes under one hold of the mutex.
 */
module PyLock {
  import opened Wrappers
  import opened LockProtocol
  import Runs

  datatype Caller = Getting | Holding | Failed(failure: Failure)

  datatype State = State(
    caller: Caller,
    threads: Threads,
    gotAcquired: bool,
    token: string,
    expiresAt: Option<int>,
    queue: seq<Option<Failure>>,
    recvDone: bool,
    lostError: Option<Failure>,
    lostEvent: bool,
    releases: Releases)

  datatype Action =
    | Get
    | Recv(result: Result<Message, Failure>)
    | Put
    | RecvExits
    | TimesOut
    | Beat(sent: Option<Failure>)
    | HeartStops
    | ReportLost(who: Who)
    | SetEvent(who: Who)
    | Release(step: ReleaseAction)

  const MAXSIZE := 1

  const START := State(Getting, Threads(Waiting, Idle), false, "", None, [], false, None, false, NO_RELEASES)

  /** _recv_loop after recv has returned or raised. */
  function Received(s: State, result: Result<Message, Failure>): (s': State)
    ensures s' == s.(token := s'.token, expiresAt := s'.expiresAt, gotAcquired := s'.gotAcquired,
                     threads := s.threads.(receiver := s'.threads.receiver))
  {
    match result
    case Err(e) => s.(threads := s.threads.(receiver := if s.gotAcquired then Losing(e) else Offering(Some(e))))
    case Ok(Acquired(token, expiresAt)) =>
      s.(token := token,
      expiresAt := if expiresAt.Some? then expiresAt else s.expiresAt,
      gotAcquired := true,
      threads := s.threads.(receiver := if s.gotAcquired then Waiting else Offering(None)))
    case Ok(TtlExtended(expiresAt)) => s.(expiresAt := if expiresAt.Some? then expiresAt else s.expiresAt)
    case Ok(QueuePosition) => s
  }

  /** Get blocks on an empty queue, Put on a full one. */
  function QueueStep(s: State, a: Action): (r: Option<State>)
    ensures r.Some? ==> r.value.releases == s.releases
    ensures r.Some? ==> r.value.lostError == s.lostError && r.value.lostEvent == s.lostEvent
  {
    match a
    case Get =>
      if s.caller.Getting? && s.queue != [] then
        var s' := s.(queue := s.queue[1..]);
        Some(if s.queue[0].Some? then s'.(caller := Failed(s.queue[0].value))
             else s'.(caller := Holding, threads := s.threads.(heart := Waiting)))
      else None
    case Put =>
      if s.threads.receiver.Offering? && |s.queue| < MAXSIZE then
        Some(s.(queue := s.queue + [s.threads.receiver.value],
             threads := s.threads.(receiver := if s.threads.receiver.value.Some? then Leaving else Waiting)))
      else None
    case _ => None
  }

  function LoopStep(s: State, a: Action): (r: Option<State>)
    ensures r.Some? ==> r.value.releases == s.releases
    ensures r.Some? ==> r.value.lostError == s.lostError && r.value.lostEvent == s.lostEvent
  {
    match a
    case Recv(result) => if s.threads.receiver.Waiting? then Some(Received(s, result)) else None
    case RecvExits =>
      if s.threads.receiver.Leaving? then Some(s.(threads := s.threads.(receiver := Gone), recvDone := true))
      else None
    case TimesOut =>
      if s.threads.heart.Waiting? && !s.releases.stopped then Some(s.(threads := s.threads.(heart := Due)))
      else None
    case Beat(sent) =>
      if s.threads.heart.Due? then
        Some(s.(threads := s.threads.(heart := if sent.Some? then Losing(sent.value) else Waiting)))
      else None
    case HeartStops =>
      if s.threads.heart.Waiting? && s.releases.stopped then Some(s.(threads := s.threads.(heart := Gone))) else None
    case _ => None
  }

  /** _report_lost: one step under the mutex, then the event. */
  function LossStep(s: State, a: Action): (r: Option<State>)
    ensures r.Some? ==> r.value.releases == s.releases
  {
    match a
    case ReportLost(who) =>
      if !PlaceOf(s.threads, who).Losing? then None
      else if s.releases.released || s.lostError.Some? then
        Some(s.(threads := MoveTo(s.threads, who, AfterReport(who))))
      else
        var e := PlaceOf(s.threads, who).failure;
        Some(s.(lostError := Some(e), threads := MoveTo(s.threads, who, Reporting(e))))
    case SetEvent(who) =>
      if PlaceOf(s.threads, who).Reporting? then
        Some(s.(lostEvent := true, threads := MoveTo(s.threads, who, AfterReport(who))))
      else None
    case _ => None
  }

  function Apply(s: State, a: Action): Option<State>
  {
    match a
    case Get | Put => QueueStep(s, a)
    case Recv(_) | RecvExits | TimesOut | Beat(_) | HeartStops => LoopStep(s, a)
    case ReportLost(_) | SetEvent(_) => LossStep(s, a)
    case Release(step) =>
      if s.caller.Holding? && ReleaseStep(s.releases, step, s.recvDone).Some? then
        Some(s.(releases := ReleaseStep(s.releases, step, s.recvDone).value))
      else None
  }

  function Run(acts: seq<Action>): Option<State>
  {
    Runs.Run(START, Apply, acts)
  }

  predicate IsRun(acts: seq<Action>)
  {
    Run(acts).Some?
  }

  function After(acts: seq<Action>): State
    requires IsRun(acts)
  {
    Run(acts).value
  }

  // The invariant.

  /** What the receive loop still owes the queue decides how full the queue can be. */
  predicate Handover(s: State)
  {
    && (s.threads.receiver.Offering? ==>
          s.queue == [] && s.caller.Getting? && s.gotAcquired == s.threads.receiver.value.None?)
    && (s.threads.receiver.Waiting? && !s.gotAcquired ==> s.queue == [] && s.caller.Getting?)
    && (s.threads.receiver.Losing? || s.threads.receiver.Reporting? ==> s.gotAcquired)
    && (s.queue != [] ==> |s.queue| == 1 && s.queue[0].None? == s.gotAcquired && s.caller.Getting?)
    && (s.caller.Holding? ==> s.gotAcquired)
    && (!s.caller.Holding? ==> s.threads.heart.Idle? && s.releases == NO_RELEASES)
    && !s.threads.receiver.Idle? && !s.threads.receiver.Parked? && !s.threads.receiver.Due?
    && !s.threads.heart.Offering? && !s.threads.heart.Leaving? && !s.threads.heart.Parked?
    && (s.recvDone <==> s.threads.receiver.Gone?)
  }

  /** The event follows the error: it is set, or its one writer is about to set it. */
  predicate LossRecorded(s: State)
  {
    && (s.lostError.Some? <==> s.lostEvent || s.threads.receiver.Reporting? || s.threads.heart.Reporting?)
    && !(s.threads.receiver.Reporting? && s.threads.heart.Reporting?)
    && (s.threads.receiver.Reporting? || s.threads.heart.Reporting? ==> !s.lostEvent)
    && (s.lostError.Some? ==> s.gotAcquired)
  }

  ghost predicate Inv(s: State)
  {
    Handover(s) && LossRecorded(s) && FirstCallActs(s.releases, s.recvDone)
  }

  lemma LoopsKeep(s: State, a: Action)
    requires Inv(s)
    ensures QueueStep(s, a).Some? ==> Inv(QueueStep(s, a).value)
    ensures LoopStep(s, a).Some? ==> Inv(LoopStep(s, a).value)
  {
    hide FirstCallActs;
    if LoopStep(s, a).Some? {
      DoneLater(s.releases, s.recvDone, LoopStep(s, a).value.recvDone);
    }
    if QueueStep(s, a).Some? && a.Put? {
      assert s.queue + [s.threads.receiver.value] == [s.threads.receiver.value];
    }
  }

  lemma LossKeeps(s: State, a: Action)
    requires Inv(s) && LossStep(s, a).Some?
    ensures Inv(LossStep(s, a).value)
  {
    hide FirstCallActs;
  }

  lemma StepKeeps(s: State, a: Action)
    requires Inv(s) && Apply(s, a).Some?
    ensures Inv(Apply(s, a).value)
  {
    hide QueueStep, LoopStep, LossStep, ReleaseStep, FirstCallActs;
    match a
    case Get | Put | Recv(_) | RecvExits | TimesOut | Beat(_) | HeartStops => LoopsKeep(s, a);
    case ReportLost(_) | SetEvent(_) => LossKeeps(s, a);
    case Release(step) => FirstCallStillActs(s.releases, step, s.recvDone);
  }

  lemma {:induction false} RunKeeps(acts: seq<Action>)
    requires IsRun(acts)
    ensures Inv(After(acts))
  {
    assert Inv(START);
    hide Inv, Apply;
    if acts != [] {
      var n := |acts| - 1;
      RunKeeps(acts[..n]);
      StepKeeps(After(acts[..n]), acts[n]);
    }
  }

  // What follows for every run.

  /** A put never waits, and a set event means a written error. */
  lemma PutNeverBlocks(acts: seq<Action>)
    requires IsRun(acts)
    ensures After(acts).threads.receiver.Offering? ==> IsRun(acts + [Put])
    ensures After(acts).lostEvent ==> After(acts).lostError.Some?
  {
    hide Runs.Run, FirstCallActs;
    RunKeeps(acts);
    Runs.Extend(START, Apply, acts, Put);
  }

  /** The step writes lost_error. */
  predicate Writes(s: State, a: Action)
  {
    a.ReportLost? && PlaceOf(s.threads, a.who).Losing? && !s.releases.released && s.lostError.None?
  }

  lemma StepError(s: State, a: Action)
    requires Inv(s) && Apply(s, a).Some?
    ensures Apply(s, a).value.lostError == if Writes(s, a) then Some(PlaceOf(s.threads, a.who).failure) else s.lostError
    ensures Writes(s, a) ==> s.gotAcquired
    ensures s.releases.released ==> Apply(s, a).value.releases.released
  {
    hide QueueStep, LoopStep, FirstCallActs;
  }

  /** Once lost_error is written, or release has begun, it never changes again. */
  lemma {:induction false} LostErrorIsFinal(acts: seq<Action>, more: seq<Action>)
    requires IsRun(acts) && IsRun(acts + more)
    requires After(acts).lostError.Some? || After(acts).releases.released
    ensures After(acts + more).lostError == After(acts).lostError
    ensures After(acts).releases.released ==> After(acts + more).releases.released
    decreases |more|
  {
    hide Runs.Run, Apply, Inv;
    if more == [] {
      assert acts + more == acts;
    } else {
      var before, last := more[..|more| - 1], more[|more| - 1];
      assert acts + more == acts + before + [last];
      Runs.Extend(START, Apply, acts + before, last);
      LostErrorIsFinal(acts, before);
      RunKeeps(acts + before);
      StepError(After(acts + before), last);
    }
  }

  /** The first loss reported while the lock was held; None when there was none. */
  function FirstLoss(acts: seq<Action>): Option<Failure>
    requires IsRun(acts)
  {
    if acts == [] then None
    else
      var n := |acts| - 1;
      var first := FirstLoss(acts[..n]);
      var s := After(acts[..n]);
      if first.Some? then first
      else if acts[n].ReportLost? && !s.releases.released && PlaceOf(s.threads, acts[n].who).Losing? then
        Some(PlaceOf(s.threads, acts[n].who).failure)
      else None
  }

  /** lost_error is exactly the first loss reported before release began. */
  lemma {:induction false} LostErrorIsFirstLoss(acts: seq<Action>)
    requires IsRun(acts)
    ensures After(acts).lostError == FirstLoss(acts)
  {
    hide Apply, Inv;
    if acts != [] {
      var n := |acts| - 1;
      LostErrorIsFirstLoss(acts[..n]);
      RunKeeps(acts[..n]);
      StepError(After(acts[..n]), acts[n]);
    }
  }

  /** The event can still be set after release began, exactly when the error was written before. */
  lemma LateEvent(acts: seq<Action>)
    requires IsRun(acts) && After(acts).releases.released && !After(acts).lostEvent
    ensures (exists more :: IsRun(acts + more) && After(acts + more).lostEvent) <==> After(acts).lostError.Some?
  {
    hide Runs.Run, Inv;
    RunKeeps(acts);
    if After(acts).lostError.Some? {
      var who := Signaller(After(acts));
      Runs.Extend(START, Apply, acts, SetEvent(who));
      assert IsRun(acts + [SetEvent(who)]);
    } else {
      forall more | IsRun(acts + more) ensures !After(acts + more).lostEvent {
        LostErrorIsFinal(acts, more);
        PutNeverBlocks(acts + more);
      }
    }
  }

  lemma Signaller(s: State) returns (who: Who)
    requires Inv(s) && s.lostError.Some? && !s.lostEvent
    ensures PlaceOf(s.threads, who).Reporting?
  {
    hide FirstCallActs;
    who := if s.threads.receiver.Reporting? then Receiver else Heart;
  }

  // The end of the receive loop, and of release.

  /** The receive loop's next step, when a recv it waits for raises e. */
  function OwnStep(p: Place, e: Failure): Action
  {
    match p
    case Waiting => Recv(Err(e))
    case Offering(_) => Put
    case Losing(_) => ReportLost(Receiver)
    case Reporting(_) => SetEvent(Receiver)
    case _ => RecvExits
  }

  predicate IsOwnStep(a: Action, e: Failure)
  {
    a == Recv(Err(e)) || a.Put? || a == ReportLost(Receiver) || a == SetEvent(Receiver) || a.RecvExits?
  }

  lemma OwnStepIsEnabled(s: State, e: Failure)
    requires Inv(s) && !s.threads.receiver.Gone?
    ensures var r := Apply(s, OwnStep(s.threads.receiver, e));
            && r.Some? && StepsLeft(r.value.threads.receiver) < StepsLeft(s.threads.receiver)
            && r.value.releases == s.releases && (s.caller.Holding? ==> r.value.caller.Holding?)
  {
    hide FirstCallActs, LossRecorded;
  }

  /** From anywhere in any run the loop ends by its own steps alone once recv raises: five at most. */
  lemma {:induction false} ReceiveLoopEnds(acts: seq<Action>, e: Failure) returns (more: seq<Action>)
    requires IsRun(acts)
    ensures IsRun(acts + more) && After(acts + more).recvDone
    ensures |more| <= StepsLeft(After(acts).threads.receiver) <= 5
    ensures forall a :: a in more ==> IsOwnStep(a, e)
    ensures After(acts + more).releases == After(acts).releases
    ensures After(acts).caller.Holding? ==> After(acts + more).caller.Holding?
    decreases StepsLeft(After(acts).threads.receiver)
  {
    RunKeeps(acts);
    var s := After(acts);
    assert s.threads.receiver.Gone? ==> s.recvDone;
    hide Runs.Run, Apply, Inv;
    if s.threads.receiver.Gone? {
      more := [];
      assert acts + more == acts;
    } else {
      var a := OwnStep(s.threads.receiver, e);
      OwnStepIsEnabled(s, e);
      Runs.Extend(START, Apply, acts, a);
      var rest := ReceiveLoopEnds(acts + [a], e);
      more := [a] + rest;
      assert acts + more == acts + [a] + rest;
    }
  }

  lemma CallsNeedHolding(s: State, id: nat)
    requires Inv(s) && At(s.releases, id).Some?
    ensures s.caller.Holding?
  {
    hide FirstCallActs, LossRecorded;
  }

  /**
   The release that closed the stream returns exactly when the receive loop has ended, which the loop's
   own steps bring about once recv raises.
   */
  lemma ReleaseCanReturn(acts: seq<Action>, id: nat, e: Failure) returns (more: seq<Action>)
    requires IsRun(acts) && At(After(acts).releases, id) == Some(Closed)
    ensures IsRun(acts + [Release(Return(id))]) <==> After(acts).recvDone
    ensures forall a :: a in more ==> IsOwnStep(a, e)
    ensures IsRun(acts + more + [Release(Return(id))])
    ensures At(After(acts + more + [Release(Return(id))]).releases, id) == Some(Returned)
  {
    hide Runs.Run, Inv, OwnStep, QueueStep, LoopStep, LossStep;
    RunKeeps(acts);
    CallsNeedHolding(After(acts), id);
    more := ReceiveLoopEnds(acts, e);
    Runs.Extend(START, Apply, acts, Release(Return(id)));
    Runs.Extend(START, Apply, acts + more, Release(Return(id)));
  }

  // How long heartbeats go on.

  /**
   The wait has timed out, or can because release has not stopped it, or the acquiring thread has yet to take
   the news that starts the loop.
   */
  predicate MayBeat(s: State)
  {
    || s.threads.heart.Due?
    || (s.threads.heart.Waiting? && !s.releases.stopped)
    || (s.caller.Getting? && (s.queue != [] || s.threads.receiver.Offering?))
  }

  lemma NoBeatStep(s: State, a: Action)
    requires Inv(s) && s.gotAcquired && !MayBeat(s) && Apply(s, a).Some?
    ensures var s' := Apply(s, a).value; s'.gotAcquired && !MayBeat(s')
  {
    hide FirstCallActs, LossRecorded;
  }

  lemma {:induction false} NoMoreBeats(acts: seq<Action>, more: seq<Action>)
    requires IsRun(acts) && IsRun(acts + more) && After(acts).gotAcquired && !MayBeat(After(acts))
    ensures After(acts + more).gotAcquired && !MayBeat(After(acts + more))
    decreases |more|
  {
    hide Runs.Run, Apply, Inv, MayBeat;
    if more == [] {
      assert acts + more == acts;
    } else {
      var before, last := more[..|more| - 1], more[|more| - 1];
      assert acts + more == acts + before + [last];
      Runs.Extend(START, Apply, acts + before, last);
      NoMoreBeats(acts, before);
      RunKeeps(acts + before);
      NoBeatStep(After(acts + before), last);
    }
  }

  lemma NewsArrives(s: State)
    requires Inv(s) && s.gotAcquired && s.caller.Getting?
    ensures s.queue != [] ==>
              var r := Apply(s, Get);
              r.Some? && r.value.threads.heart.Waiting? && !r.value.releases.stopped
    ensures s.threads.receiver.Offering? ==>
              var r := Apply(s, Put);
              r.Some? && r.value.gotAcquired && r.value.caller.Getting? && r.value.queue != []
  {
    hide FirstCallActs, LossRecorded;
  }

  lemma WaitEnds(s: State)
    requires s.threads.heart.Waiting? && !s.releases.stopped
    ensures Apply(s, TimesOut).Some? && Apply(s, TimesOut).value.threads.heart.Due?
  {}

  lemma WayToBeat(acts: seq<Action>) returns (more: seq<Action>)
    requires IsRun(acts) && After(acts).gotAcquired && MayBeat(After(acts))
    ensures IsRun(acts + more) && After(acts + more).threads.heart.Due?
  {
    hide Runs.Run, Apply, Inv;
    RunKeeps(acts);
    var s := After(acts);
    var way: seq<Action>;
    if s.threads.heart.Due? {
      more := [];
      assert acts + more == acts;
      return;
    } else if s.threads.heart.Waiting? && !s.releases.stopped {
      way := [];
      assert acts + way == acts;
    } else if s.queue != [] {
      way := [Get];
      NewsArrives(s);
      Runs.Extend(START, Apply, acts, Get);
    } else {
      way := [Put] + [Get];
      NewsArrives(s);
      Runs.Extend(START, Apply, acts, Put);
      RunKeeps(acts + [Put]);
      NewsArrives(After(acts + [Put]));
      Runs.Extend(START, Apply, acts + [Put], Get);
      assert acts + way == acts + [Put] + [Get];
    }
    WaitEnds(After(acts + way));
    Runs.Extend(START, Apply, acts + way, TimesOut);
    more := way + [TimesOut];
    assert acts + more == acts + way + [TimesOut];
  }

  lemma BeatNeedsLoop(acts: seq<Action>)
    requires IsRun(acts)
    ensures IsRun(acts + [Beat(None)]) <==> After(acts).threads.heart.Due?
  {
    hide Runs.Run;
    Runs.Extend(START, Apply, acts, Beat(None));
  }

  /** After ACQUIRED another heartbeat can be sent exactly when MayBeat says so: the loss of the lock is no matter. */
  lemma MoreBeatsExactly(acts: seq<Action>)
    requires IsRun(acts) && After(acts).gotAcquired
    ensures (exists more :: IsRun(acts + more) && IsRun(acts + more + [Beat(None)])) <==> MayBeat(After(acts))
  {
    hide Runs.Run, Apply, Inv;
    if MayBeat(After(acts)) {
      var more := WayToBeat(acts);
      BeatNeedsLoop(acts + more);
      assert IsRun(acts + more);
    } else {
      forall more | IsRun(acts + more) ensures !IsRun(acts + more + [Beat(None)]) {
        NoMoreBeats(acts, more);
        BeatNeedsLoop(acts + more);
      }
    }
  }

  /** A run to holding the lock, and its state. */
  const TAKING := [Recv(Ok(Acquired("t", None)))] + [Put] + [Get]

  const HELD := START.(token := "t", gotAcquired := true, caller := Holding, threads := Threads(Waiting, Waiting))

  lemma HeldRun()
    ensures Run(TAKING) == Some(HELD)
  {
    assert Run([]) == Some(START);
    hide Runs.Run;
    var first: seq<Action> := [Recv(Ok(Acquired("t", None)))];
    var offer: seq<Option<Failure>> := [None];
    Runs.Extend(START, Apply, [], first[0]);
    assert [] + first == first;
    Runs.Extend(START, Apply, first, Put);
    assert [] + offer == offer && offer[1..] == [];
    Runs.Extend(START, Apply, first + [Put], Get);
  }

  /** A heartbeat is sent after lost_error was written and lost_event set. */
  lemma BeatAfterLoss()
    ensures var lost := TAKING + [Recv(Err(7))] + [ReportLost(Receiver)] + [SetEvent(Receiver)];
            && IsRun(lost) && After(lost).lostError == Some(7) && After(lost).lostEvent
            && IsRun(lost + [TimesOut] + [Beat(None)])
  {
    HeldRun();
    hide Runs.Run, TAKING;
    Runs.Extend(START, Apply, TAKING, Recv(Err(7)));
    Runs.Extend(START, Apply, TAKING + [Recv(Err(7))], ReportLost(Receiver));
    Runs.Extend(START, Apply, TAKING + [Recv(Err(7))] + [ReportLost(Receiver)], SetEvent(Receiver));
    var lost := TAKING + [Recv(Err(7))] + [ReportLost(Receiver)] + [SetEvent(Receiver)];
    Runs.Extend(START, Apply, lost, TimesOut);
    BeatNeedsLoop(lost + [TimesOut]);
  }

  // The end of the heartbeat.

  function Beats(acts: seq<Action>): nat
  {
    if acts == [] then 0 else Beats(acts[..|acts| - 1]) + if acts[|acts| - 1].Beat? then 1 else 0
  }

  /** Heartbeats whose wait was over when the loop was stopped. */
  function Late(s: State): nat
  {
    if s.threads.heart.Due? then 1 else 0
  }

  lemma StoppedStep(s: State, a: Action)
    requires Inv(s) && s.releases.stopped && Apply(s, a).Some?
    ensures var s' := Apply(s, a).value;
            s'.releases.stopped && Late(s') + (if a.Beat? then 1 else 0) <= Late(s)
  {
    hide FirstCallActs, LossRecorded;
  }

  /** Once release has stopped the heartbeat one more can be sent, if its wait was over before, and no second. */
  lemma {:induction false} OneBeatAfterStop(acts: seq<Action>, more: seq<Action>)
    requires IsRun(acts) && IsRun(acts + more) && After(acts).releases.stopped
    ensures After(acts + more).releases.stopped
    ensures Beats(more) + Late(After(acts + more)) <= Late(After(acts)) <= 1
    decreases |more|
  {
    assert Late(After(acts)) <= 1;
    hide Runs.Run, Apply, Inv, Late;
    if more == [] {
      assert acts + more == acts;
    } else {
      var before, last := more[..|more| - 1], more[|more| - 1];
      assert acts + more == acts + before + [last];
      Runs.Extend(START, Apply, acts + before, last);
      OneBeatAfterStop(acts, before);
      RunKeeps(acts + before);
      StoppedStep(After(acts + before), last);
    }
  }

  /** The heartbeat loop ends with the action. */
  predicate Ends(a: Action)
  {
    a.HeartStops? || (a.Beat? && a.sent.Some?)
  }

  function Ended(acts: seq<Action>): bool
  {
    acts != [] && (Ended(acts[..|acts| - 1]) || Ends(acts[|acts| - 1]))
  }

  lemma HeartLoopStep(s: State, a: Action)
    requires Inv(s) && Apply(s, a).Some?
    ensures var s' := Apply(s, a).value;
            && (Beating(s'.threads.heart) <==>
                  (Beating(s.threads.heart) && !Ends(a)) || (!s.caller.Holding? && s'.caller.Holding?))
            && (s.caller.Holding? ==> s'.caller.Holding?)
            && (Beating(s.threads.heart) ==> s.caller.Holding?)
            && (Ends(a) ==> Beating(s.threads.heart))
            && (s.releases.stopped || a.HeartStops? ==> s'.releases.stopped)
  {
    hide FirstCallActs, LossRecorded, Received;
  }

  /**
   The heartbeat loop runs from the moment the acquiring thread has taken the ACQUIRED until a send raises or
   the loop notices the release, and nothing else ends it.
   */
  lemma {:induction false} LoopRunsExactly(acts: seq<Action>)
    requires IsRun(acts)
    ensures Beating(After(acts).threads.heart) <==> After(acts).caller.Holding? && !Ended(acts)
    ensures Ended(acts) ==> After(acts).caller.Holding?
    ensures HeartStops in acts ==> After(acts).releases.stopped
  {
    assert !Beating(START.threads.heart);
    hide Apply, Inv, Ends, Beating;
    if acts != [] {
      var n := |acts| - 1;
      LoopRunsExactly(acts[..n]);
      RunKeeps(acts[..n]);
      HeartLoopStep(After(acts[..n]), acts[n]);
      assert acts == acts[..n] + [acts[n]];
    }
  }
}
