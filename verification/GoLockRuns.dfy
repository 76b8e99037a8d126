/**
 What holds on every run of the Go lock: both channels take one value ever, nothing in the receive
 loop blocks but Recv, and exactly when a loss can still reach the owner after Release was called.
 */
module GoLockRuns {
  import opened Wrappers
  import opened LockProtocol
  import opened GoLock
  import Runs

  predicate IsRun(acts: seq<Action>)
  {
    Run(acts).Some?
  }

  function After(acts: seq<Action>): State
    requires IsRun(acts)
  {
    Run(acts).value
  }

  // Each channel takes at most one value, and the stream is closed at most once.

  function Occurrences(acts: seq<Action>, p: Action -> bool): nat
  {
    if acts == [] then 0
    else Occurrences(acts[..|acts| - 1], p) + if p(acts[|acts| - 1]) then 1 else 0
  }

  predicate IsClose(a: Action)
  {
    a.Release? && a.step.Close?
  }

  lemma CountersStep(s: State, a: Action)
    requires Apply(s, a).Some?
    ensures Apply(s, a).value.offered == s.offered + if a.PutAcquired? then 1 else 0
    ensures Apply(s, a).value.releases.closeSends == s.releases.closeSends + if IsClose(a) then 1 else 0
  {
    hide CallerStep, ReceiverStep, HeartStep, ReportStep;
  }

  lemma {:induction false} Counters(acts: seq<Action>)
    requires IsRun(acts)
    ensures After(acts).offered == Occurrences(acts, (a: Action) => a.PutAcquired?)
    ensures After(acts).releases.closeSends == Occurrences(acts, IsClose)
  {
    hide Apply;
    if acts != [] {
      var n := |acts| - 1;
      Counters(acts[..n]);
      CountersStep(After(acts[..n]), acts[n]);
    }
  }

  lemma OneOfEach(acts: seq<Action>)
    requires IsRun(acts)
    ensures Occurrences(acts, (a: Action) => a.PutAcquired?) <= 1
    ensures Occurrences(acts, IsClose) <= 1
    ensures var s := After(acts); s.collected + |s.lost| == s.delivered <= 1
  {
    hide Runs.Run;
    RunKeeps(acts);
    Counters(acts);
  }

  // Nothing but Recv can hold up the receive loop.

  /** Neither send waits, and the send of the first loss never takes its default branch. */
  lemma SendsNeverBlock(acts: seq<Action>, who: Who)
    requires IsRun(acts)
    ensures After(acts).threads.receiver.Offering? ==> IsRun(acts + [PutAcquired])
    ensures var p := PlaceOf(After(acts).threads, who);
            p.Reporting? ==> && IsRun(acts + [Report(who)])
                             && (!After(acts).lostOnce ==> After(acts + [Report(who)]).lost == [p.failure])
  {
    hide Runs.Run;
    RunKeeps(acts);
    Runs.Extend(START, Apply, acts, PutAcquired);
    Runs.Extend(START, Apply, acts, Report(who));
  }

  /** The receive loop's next step, when a Recv it waits for fails with e. */
  function OwnStep(p: Place, e: Failure): Action
  {
    match p
    case Waiting => Recv(Err(e))
    case Offering(_) => PutAcquired
    case Losing(_) => Check(Receiver)
    case Reporting(_) => Report(Receiver)
    case _ => RecvExits
  }

  predicate IsOwnStep(a: Action, e: Failure)
  {
    a == Recv(Err(e)) || a.PutAcquired? || a == Check(Receiver) || a == Report(Receiver) || a.RecvExits?
  }

  lemma OwnStepIsEnabled(s: State, e: Failure)
    requires Inv(s) && !s.threads.receiver.Gone?
    ensures Apply(s, OwnStep(s.threads.receiver, e)).Some?
    ensures StepsLeft(Apply(s, OwnStep(s.threads.receiver, e)).value.threads.receiver) < StepsLeft(s.threads.receiver)
  {
    hide FirstCallActs, Loss, Ownership, Reported;
  }

  /** From anywhere in any run the loop ends by its own steps alone once Recv fails: five at most. */
  lemma {:induction false} ReceiveLoopEnds(acts: seq<Action>, e: Failure) returns (more: seq<Action>)
    requires IsRun(acts)
    ensures IsRun(acts + more) && After(acts + more).recvDone
    ensures |more| <= StepsLeft(After(acts).threads.receiver) <= 5
    ensures forall a :: a in more ==> IsOwnStep(a, e)
    decreases StepsLeft(After(acts).threads.receiver)
  {
    hide Runs.Run, Apply;
    RunKeeps(acts);
    var s := After(acts);
    if s.threads.receiver.Gone? {
      more := [];
      assert acts + more == acts;
    } else {
      var a := OwnStep(s.threads.receiver, e);
      OwnStepIsEnabled(s, e);
      Runs.Extend(START, Apply, acts, a);
      var rest := ReceiveLoopEnds(acts + [a], e);
      more := [a] + rest;
      assert acts + more == acts + [a] + rest;
    }
  }

  /**
   The call of Release that closed the stream returns exactly when the receive loop has ended, which the
   loop's own steps bring about once Recv fails, whatever the others do.
   */
  lemma ReleaseCanReturn(acts: seq<Action>, id: nat, e: Failure) returns (more: seq<Action>)
    requires IsRun(acts) && At(After(acts).releases, id) == Some(Closed)
    ensures IsRun(acts + [Release(Return(id))]) <==> After(acts).recvDone
    ensures forall a :: a in more ==> IsOwnStep(a, e)
    ensures IsRun(acts + more + [Release(Return(id))])
    ensures At(After(acts + more + [Release(Return(id))]).releases, id) == Some(Returned)
  {
    hide Runs.Run, Inv, IsOwnStep, ReceiverStep, ReportStep;
    more := ReceiveLoopEnds(acts, e);
    CallsNeedHolding(acts, id);
    OwnStepsKeepReleases(acts, more, e);
    Runs.Extend(START, Apply, acts, Release(Return(id)));
    Runs.Extend(START, Apply, acts + more, Release(Return(id)));
  }

  lemma CallsNeedHolding(acts: seq<Action>, id: nat)
    requires IsRun(acts) && At(After(acts).releases, id).Some?
    ensures After(acts).caller.Holding?
  {
    hide Runs.Run, FirstCallActs;
    RunKeeps(acts);
  }

  lemma OwnStepKeepsReleases(s: State, a: Action, e: Failure)
    requires IsOwnStep(a, e) && Apply(s, a).Some?
    ensures Apply(s, a).value.releases == s.releases && Apply(s, a).value.caller == s.caller
  {
    hide ReceiverStep, ReportStep;
  }

  lemma {:induction false} OwnStepsKeepReleases(acts: seq<Action>, more: seq<Action>, e: Failure)
    requires IsRun(acts) && IsRun(acts + more)
    requires forall a :: a in more ==> IsOwnStep(a, e)
    ensures After(acts + more).releases == After(acts).releases && After(acts + more).caller == After(acts).caller
    decreases |more|
  {
    hide Runs.Run, Apply, IsOwnStep;
    if more == [] {
      assert acts + more == acts;
    } else {
      var before, last := more[..|more| - 1], more[|more| - 1];
      assert acts + more == acts + before + [last];
      Runs.Extend(START, Apply, acts + before, last);
      OwnStepsKeepReleases(acts, before, e);
      OwnStepKeepsReleases(After(acts + before), last, e);
    }
  }

  // Where a loss comes from.

  lemma StepToReporting(s: State, a: Action, who: Who, e: Failure)
    requires Inv(s) && Apply(s, a).Some? && PlaceOf(Apply(s, a).value.threads, who) == Reporting(e)
    ensures || PlaceOf(s.threads, who) == Reporting(e)
            || (a == Check(who) && PlaceOf(s.threads, who) == Losing(e) && !s.releases.released && s.gotAcquired)
  {
    hide FirstCallActs, Loss, Handover, CallerStep, ReceiverStep, HeartStep, ReportStep;
    if a.Check? || a.Report? {
      ReportToReporting(s, a, who, e);
    } else {
      OtherToReporting(s, a, who, e);
    }
  }

  lemma ReportToReporting(s: State, a: Action, who: Who, e: Failure)
    requires Inv(s) && ReportStep(s, a).Some? && PlaceOf(ReportStep(s, a).value.threads, who) == Reporting(e)
    ensures || PlaceOf(s.threads, who) == Reporting(e)
            || (a == Check(who) && PlaceOf(s.threads, who) == Losing(e) && !s.releases.released && s.gotAcquired)
  {
    hide FirstCallActs, Loss, Reported;
  }

  lemma OtherToReporting(s: State, a: Action, who: Who, e: Failure)
    requires Apply(s, a).Some? && PlaceOf(Apply(s, a).value.threads, who) == Reporting(e) && !a.Check? && !a.Report?
    ensures PlaceOf(s.threads, who) == Reporting(e)
  {
    hide CallerStep, ReceiverStep, HeartStep, ReportStep, ReleaseStep;
    CallerReportsNothing(s, a, who, e);
    ReceiverReportsNothing(s, a, who, e);
    HeartReportsNothing(s, a, who, e);
  }

  lemma CallerReportsNothing(s: State, a: Action, who: Who, e: Failure)
    ensures var r := CallerStep(s, a);
            r.Some? && PlaceOf(r.value.threads, who) == Reporting(e) ==> PlaceOf(s.threads, who) == Reporting(e)
  {}

  lemma ReceiverReportsNothing(s: State, a: Action, who: Who, e: Failure)
    ensures var r := ReceiverStep(s, a);
            r.Some? && PlaceOf(r.value.threads, who) == Reporting(e) ==> PlaceOf(s.threads, who) == Reporting(e)
  {}

  lemma HeartReportsNothing(s: State, a: Action, who: Who, e: Failure)
    ensures var r := HeartStep(s, a);
            r.Some? && PlaceOf(r.value.threads, who) == Reporting(e) ==> PlaceOf(s.threads, who) == Reporting(e)
  {}

  /** A goroutine about to report e has checked: it saw released false, after ACQUIRED. */
  lemma {:induction false} ReportFollowsCheck(acts: seq<Action>, who: Who, e: Failure) returns (i: nat)
    requires IsRun(acts) && PlaceOf(After(acts).threads, who) == Reporting(e)
    ensures i < |acts| && acts[i] == Check(who) && IsRun(acts[..i])
    ensures var s := After(acts[..i]); PlaceOf(s.threads, who) == Losing(e) && !s.releases.released && s.gotAcquired
  {
    hide Apply, Inv;
    var n := |acts| - 1;
    var s := After(acts[..n]);
    RunKeeps(acts[..n]);
    StepToReporting(s, acts[n], who, e);
    if PlaceOf(s.threads, who) == Reporting(e) {
      i := ReportFollowsCheck(acts[..n], who, e);
      assert acts[..n][..i] == acts[..i];
    } else {
      i := n;
    }
  }

  lemma StepToLost(s: State, a: Action)
    requires Inv(s) && Apply(s, a).Some? && Apply(s, a).value.delivered > s.delivered
    ensures a.Report? && PlaceOf(s.threads, a.who).Reporting? && !s.lostOnce
    ensures Apply(s, a).value.lost == [PlaceOf(s.threads, a.who).failure]
  {
    hide FirstCallActs, Handover, ReceiverStep, Taken;
  }

  /** The j-th step of a run put a value into the lost channel. */
  predicate Delivers(acts: seq<Action>, j: nat)
    requires j < |acts|
  {
    IsRun(acts[..j]) && IsRun(acts[..j + 1]) && After(acts[..j + 1]).delivered > After(acts[..j]).delivered
  }

  /** Every value in the lost channel comes from a check that saw released false, after ACQUIRED. */
  lemma LossFollowsCheck(acts: seq<Action>, j: nat) returns (i: nat)
    requires j < |acts| && Delivers(acts, j)
    ensures acts[j].Report? && i < j && acts[i] == Check(acts[j].who) && IsRun(acts[..i])
    ensures var s := After(acts[..i]);
            && !s.releases.released && s.gotAcquired
            && PlaceOf(s.threads, acts[j].who).Losing?
            && After(acts[..j + 1]).lost == [PlaceOf(s.threads, acts[j].who).failure]
  {
    hide Runs.Run, Apply, Inv;
    var before := acts[..j];
    assert acts[..j + 1] == before + [acts[j]];
    Runs.Extend(START, Apply, before, acts[j]);
    RunKeeps(before);
    StepToLost(After(before), acts[j]);
    i := ReportFollowsCheck(before, acts[j].who, PlaceOf(After(before).threads, acts[j].who).failure);
    assert before[..i] == acts[..i];
  }

  // When a loss can still arrive after Release was called.

  /** Some goroutine has checked, found the lock held, and has not sent yet. */
  predicate LossInFlight(s: State)
  {
    !s.lostOnce && (s.threads.receiver.Reporting? || s.threads.heart.Reporting?)
  }

  predicate OnceKept(s: State, s': State)
  {
    (s.releases.released ==> s'.releases.released) && (s.lostOnce ==> s'.lostOnce) && s'.delivered >= s.delivered
  }

  lemma OnceStaysDone(s: State, a: Action)
    requires Apply(s, a).Some?
    ensures OnceKept(s, Apply(s, a).value)
  {
    hide ReceiverStep, ReportStep, Taken;
    OnceAfterReport(s, a);
  }

  lemma OnceAfterReport(s: State, a: Action)
    ensures ReportStep(s, a).Some? ==> OnceKept(s, ReportStep(s, a).value)
  {
    hide MoveTo;
  }

  lemma QuietStep(s: State, a: Action)
    requires Inv(s) && s.releases.released && !LossInFlight(s) && Apply(s, a).Some?
    ensures var s' := Apply(s, a).value; s'.releases.released && !LossInFlight(s') && s'.delivered == s.delivered
  {
    hide Inv, Apply;
    OnceStaysDone(s, a);
    var s' := Apply(s, a).value;
    if s'.delivered > s.delivered {
      StepToLost(s, a);
    }
    if LossInFlight(s') {
      var who := InFlight(s');
      StepToReporting(s, a, who, PlaceOf(s'.threads, who).failure);
    }
  }

  lemma {:induction false} StaysQuiet(acts: seq<Action>, more: seq<Action>)
    requires IsRun(acts) && IsRun(acts + more) && After(acts).releases.released && !LossInFlight(After(acts))
    ensures var s' := After(acts + more);
            s'.releases.released && !LossInFlight(s') && s'.delivered == After(acts).delivered
    decreases |more|
  {
    hide Runs.Run, Apply, LossInFlight, Inv;
    if more == [] {
      assert acts + more == acts;
    } else {
      var before, last := more[..|more| - 1], more[|more| - 1];
      assert acts + more == acts + before + [last];
      Runs.Extend(START, Apply, acts + before, last);
      StaysQuiet(acts, before);
      RunKeeps(acts + before);
      QuietStep(After(acts + before), last);
    }
  }

  /** Once Release was called, a loss can still be delivered exactly when one is in flight. */
  lemma LateLossExactly(acts: seq<Action>)
    requires IsRun(acts) && After(acts).releases.released
    ensures (exists more :: IsRun(acts + more) && After(acts + more).delivered > After(acts).delivered)
            <==> LossInFlight(After(acts))
  {
    hide Runs.Run, Inv, LossInFlight;
    if LossInFlight(After(acts)) {
      var who := InFlight(After(acts));
      SendsNeverBlock(acts, who);
      Runs.Extend(START, Apply, acts, Report(who));
      RunKeeps(acts);
      DeliveredNow(After(acts), who);
      assert IsRun(acts + [Report(who)]);
    } else {
      forall more | IsRun(acts + more) ensures After(acts + more).delivered == After(acts).delivered {
        StaysQuiet(acts, more);
      }
    }
  }

  lemma InFlight(s: State) returns (who: Who)
    requires LossInFlight(s)
    ensures PlaceOf(s.threads, who).Reporting? && !s.lostOnce
  {
    who := if s.threads.receiver.Reporting? then Receiver else Heart;
  }

  lemma DeliveredNow(s: State, who: Who)
    requires Inv(s) && PlaceOf(s.threads, who).Reporting? && !s.lostOnce
    ensures Apply(s, Report(who)).Some? && Apply(s, Report(who)).value.delivered == s.delivered + 1
  {
    hide FirstCallActs;
  }

  /** A run to holding the lock, and its state. */
  const TAKING := [Recv(Ok(Acquired("t", None))), PutAcquired, CallerTakes]

  const HELD := START.(token := "t", gotAcquired := true, caller := Holding, offered := 1,
                        threads := Threads(Waiting, Waiting))

  lemma HeldRun()
    ensures Run(TAKING) == Some(HELD)
  {
    assert Run([]) == Some(START);
    hide Runs.Run;
    var offer: seq<Option<Failure>> := [None];
    assert ([] + offer)[1..] == [];
    Runs.Extend(START, Apply, [], TAKING[0]);
    assert [] + [TAKING[0]] == [TAKING[0]];
    Runs.Extend(START, Apply, [TAKING[0]], TAKING[1]);
    assert [TAKING[0]] + [TAKING[1]] == [TAKING[0], TAKING[1]];
    Runs.Extend(START, Apply, [TAKING[0], TAKING[1]], TAKING[2]);
    assert [TAKING[0], TAKING[1]] + [TAKING[2]] == TAKING;
  }

  /** It does happen: the check and the send of reportLost are not one step. */
  lemma LossAfterRelease()
    ensures var late := TAKING + [Recv(Err(7))] + [Check(Receiver)] + [Release(Call(0))];
            IsRun(late) && After(late).releases.released && LossInFlight(After(late))
  {
    hide Runs.Run;
    HeldRun();
    Runs.Extend(START, Apply, TAKING, Recv(Err(7)));
    Runs.Extend(START, Apply, TAKING + [Recv(Err(7))], Check(Receiver));
    Runs.Extend(START, Apply, TAKING + [Recv(Err(7))] + [Check(Receiver)], Release(Call(0)));
  }

  // How long heartbeats go on.

  /** The heartbeat loop can still choose a tick, or acquireLock has yet to take the news that starts it. */
  predicate MayTick(s: State)
  {
    || s.threads.heart.Waiting?
    || s.threads.heart.Due?
    || (s.threads.heart.Parked? && !Stopping(s))
    || (s.caller.Selecting? && (s.acquired != [] || s.threads.receiver.Offering?))
  }

  lemma NoTickStep(s: State, a: Action)
    requires Inv(s) && s.gotAcquired && !MayTick(s) && Apply(s, a).Some?
    ensures var s' := Apply(s, a).value; s'.gotAcquired && !MayTick(s')
  {
    hide FirstCallActs, Loss, Reported;
  }

  lemma {:induction false} NoMoreTicks(acts: seq<Action>, more: seq<Action>)
    requires IsRun(acts) && IsRun(acts + more) && After(acts).gotAcquired && !MayTick(After(acts))
    ensures After(acts + more).gotAcquired && !MayTick(After(acts + more))
    decreases |more|
  {
    hide Runs.Run, Apply, Inv, MayTick;
    if more == [] {
      assert acts + more == acts;
    } else {
      var before, last := more[..|more| - 1], more[|more| - 1];
      assert acts + more == acts + before + [last];
      Runs.Extend(START, Apply, acts + before, last);
      NoMoreTicks(acts, before);
      RunKeeps(acts + before);
      NoTickStep(After(acts + before), last);
    }
  }

  lemma NewsArrives(s: State)
    requires Inv(s) && s.gotAcquired && s.caller.Selecting?
    ensures s.acquired != [] ==>
              Apply(s, CallerTakes).Some? && Apply(s, CallerTakes).value.threads.heart.Waiting?
    ensures s.threads.receiver.Offering? ==>
              var r := Apply(s, PutAcquired);
              r.Some? && r.value.gotAcquired && r.value.caller.Selecting? && r.value.acquired != []
  {
    hide FirstCallActs;
  }

  lemma Chooses(s: State)
    requires s.threads.heart.Waiting? || (s.threads.heart.Parked? && !Stopping(s))
    ensures Apply(s, TickChosen).Some? && Apply(s, TickChosen).value.threads.heart.Due?
  {}

  lemma WayToTick(acts: seq<Action>) returns (more: seq<Action>)
    requires IsRun(acts) && After(acts).gotAcquired && MayTick(After(acts))
    ensures IsRun(acts + more) && After(acts + more).threads.heart.Due?
  {
    hide Runs.Run, Apply, Inv;
    RunKeeps(acts);
    var s := After(acts);
    var way: seq<Action>;
    if s.threads.heart.Due? {
      more := [];
      assert acts + more == acts;
      return;
    } else if s.threads.heart.Waiting? || (s.threads.heart.Parked? && !Stopping(s)) {
      way := [];
      assert acts + way == acts;
    } else if s.acquired != [] {
      way := [CallerTakes];
      NewsArrives(s);
      Runs.Extend(START, Apply, acts, CallerTakes);
    } else {
      way := [PutAcquired] + [CallerTakes];
      NewsArrives(s);
      Runs.Extend(START, Apply, acts, PutAcquired);
      RunKeeps(acts + [PutAcquired]);
      NewsArrives(After(acts + [PutAcquired]));
      Runs.Extend(START, Apply, acts + [PutAcquired], CallerTakes);
      assert acts + way == acts + [PutAcquired] + [CallerTakes];
    }
    Chooses(After(acts + way));
    Runs.Extend(START, Apply, acts + way, TickChosen);
    more := way + [TickChosen];
    assert acts + more == acts + way + [TickChosen];
  }

  lemma TickNeedsLoop(acts: seq<Action>)
    requires IsRun(acts)
    ensures IsRun(acts + [Tick(None)]) <==> After(acts).threads.heart.Due?
  {
    hide Runs.Run;
    Runs.Extend(START, Apply, acts, Tick(None));
  }

  /** After ACQUIRED another heartbeat can be sent exactly when MayTick says so: the loss of the lock is no matter. */
  lemma MoreTicksExactly(acts: seq<Action>)
    requires IsRun(acts) && After(acts).gotAcquired
    ensures (exists more :: IsRun(acts + more) && IsRun(acts + more + [Tick(None)])) <==> MayTick(After(acts))
  {
    hide Runs.Run, Apply, Inv;
    if MayTick(After(acts)) {
      var more := WayToTick(acts);
      TickNeedsLoop(acts + more);
      assert IsRun(acts + more);
    } else {
      forall more | IsRun(acts + more) ensures !IsRun(acts + more + [Tick(None)]) {
        NoMoreTicks(acts, more);
        TickNeedsLoop(acts + more);
      }
    }
  }

  /** A heartbeat is sent after the loss of the lock was delivered, where the stream still takes it. */
  lemma TickAfterLoss()
    ensures var lost := TAKING + [Recv(Err(7))] + [Check(Receiver)] + [Report(Receiver)];
            IsRun(lost) && After(lost).lost == [7] && IsRun(lost + [TickChosen] + [Tick(None)])
  {
    hide Runs.Run;
    HeldRun();
    Runs.Extend(START, Apply, TAKING, Recv(Err(7)));
    Runs.Extend(START, Apply, TAKING + [Recv(Err(7))], Check(Receiver));
    var lost := TAKING + [Recv(Err(7))] + [Check(Receiver)] + [Report(Receiver)];
    Runs.Extend(START, Apply, TAKING + [Recv(Err(7))] + [Check(Receiver)], Report(Receiver));
    Runs.Extend(START, Apply, lost, TickChosen);
    TickNeedsLoop(lost + [TickChosen]);
  }

  /** The heartbeat loop ends with the action. */
  predicate Ends(a: Action)
  {
    a.HeartStops? || (a.Tick? && a.sent.Some?)
  }

  function Ended(acts: seq<Action>): bool
  {
    acts != [] && (Ended(acts[..|acts| - 1]) || Ends(acts[|acts| - 1]))
  }

  predicate LoopRight(s: State, acts: seq<Action>)
  {
    && (Beating(s.threads.heart) <==> s.caller.Holding? && !Ended(acts))
    && (Ended(acts) ==> s.caller.Holding?)
    && (HeartStops in acts ==> s.ctxDone || s.releases.stopped)
  }

  lemma HeartLoopStep(s: State, a: Action)
    requires Inv(s) && Apply(s, a).Some?
    ensures var s' := Apply(s, a).value;
            && (Beating(s'.threads.heart) <==>
                  (Beating(s.threads.heart) && !Ends(a)) || (!s.caller.Holding? && s'.caller.Holding?))
            && (s.caller.Holding? ==> s'.caller.Holding?)
            && (Beating(s.threads.heart) ==> s.caller.Holding?)
            && (Ends(a) ==> Beating(s.threads.heart))
            && (s.ctxDone || s.releases.stopped || a.HeartStops? ==> s'.ctxDone || s'.releases.stopped)
  {
    hide FirstCallActs, Handover, Loss, ReportStep, ReceiverStep;
  }

  /**
   The heartbeat loop runs from the moment acquireLock has taken the ACQUIRED until a send fails or the loop
   notices that the context is done or the lock released, and nothing else ends it.
   */
  lemma {:induction false} LoopRunsExactly(acts: seq<Action>)
    requires IsRun(acts)
    ensures LoopRight(After(acts), acts)
  {
    assert !Beating(START.threads.heart);
    hide Apply, Inv, Ends, Beating;
    if acts != [] {
      var n := |acts| - 1;
      LoopRunsExactly(acts[..n]);
      RunKeeps(acts[..n]);
      HeartLoopStep(After(acts[..n]), acts[n]);
      assert acts == acts[..n] + [acts[n]];
    }
  }

  // What the lock tells its owner.

  function Messages(acts: seq<Action>): seq<Message>
  {
    if acts == [] then []
    else
      var n := |acts| - 1;
      Messages(acts[..n]) +
      if acts[n].Recv? && acts[n].result.Ok? then [acts[n].result.value] else []
  }

  predicate Told(s: State, ms: seq<Message>)
  {
    && s.token == LastToken(ms)
    && s.expiresAt == LastStamp(ms)
    && (s.gotAcquired <==> AnyAcquired(ms))
  }

  lemma ToldMore(s: State, result: Result<Message, Failure>, ms: seq<Message>)
    requires Told(s, ms)
    ensures Told(Received(s, result), if result.Ok? then ms + [result.value] else ms)
  {
    hide LastToken, LastStamp, AnyAcquired;
    if result.Ok? {
      OneMore(ms, result.value);
    }
  }

  lemma ToldStep(s: State, a: Action, ms: seq<Message>)
    requires Apply(s, a).Some? && Told(s, ms)
    ensures Told(Apply(s, a).value, if a.Recv? && a.result.Ok? then ms + [a.result.value] else ms)
  {
    hide CallerStep, HeartStep, ReportStep, ReleaseStep, Received, LastToken, LastStamp, AnyAcquired;
    if a.Recv? {
      ToldMore(s, a.result, ms);
    } else {
      assert SameTold(s, Apply(s, a).value);
    }
  }

  /** Token and expiry are those of the last messages that set them; acquired means an ACQUIRED came. */
  lemma {:induction false} TellsLatest(acts: seq<Action>)
    requires IsRun(acts)
    ensures Told(After(acts), Messages(acts))
  {
    assert Told(START, []);
    hide Apply, Told;
    if acts != [] {
      var n := |acts| - 1;
      TellsLatest(acts[..n]);
      ToldStep(After(acts[..n]), acts[n], Messages(acts[..n]));
      assert Messages(acts[..n]) + [] == Messages(acts[..n]);
    }
  }

  /** Who holds the lock was told so, and once an acting Release has returned nothing more is told. */
  lemma HolderWasTold(acts: seq<Action>)
    requires IsRun(acts) && After(acts).caller.Holding?
    ensures AnyAcquired(Messages(acts))
  {
    hide Runs.Run, Messages;
    RunKeeps(acts);
    TellsLatest(acts);
  }

  lemma {:induction false} SilentAfterReturn(acts: seq<Action>, more: seq<Action>, id: nat)
    requires IsRun(acts) && IsRun(acts + more) && At(After(acts).releases, id) == Some(Returned)
    ensures Messages(acts + more) == Messages(acts) && At(After(acts + more).releases, id) == Some(Returned)
    decreases |more|
  {
    hide Runs.Run, Apply, Inv;
    if more == [] {
      assert acts + more == acts;
    } else {
      var before, last := more[..|more| - 1], more[|more| - 1];
      assert acts + more == acts + before + [last];
      assert (acts + before + [last])[..|acts + before|] == acts + before;
      Runs.Extend(START, Apply, acts + before, last);
      SilentAfterReturn(acts, before, id);
      RunKeeps(acts + before);
      SilentStep(After(acts + before), last, id);
    }
  }

  lemma SilentStep(s: State, a: Action, id: nat)
    requires Inv(s) && Apply(s, a).Some? && At(s.releases, id) == Some(Returned)
    ensures !a.Recv? && At(Apply(s, a).value.releases, id) == Some(Returned)
  {
    hide Ownership, Loss, Received;
    assert Acting(s.releases, id);
  }
}
