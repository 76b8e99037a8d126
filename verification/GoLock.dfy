/**
 go/restart.go: acquireLock, recvLoop, heartbeatLoop, Lock.Release and Lock.reportLost as goroutines
 whose atomic steps interleave in any order. A step that would block is not enabled.
 */
module GoLock {
  import opened Wrappers
  import opened LockProtocol
  import Runs

  /** Where the goroutine in acquireLock is. */
  datatype Caller = Selecting | Holding | Failed(failure: Failure) | Cancelled

  datatype State = State(
    ctxDone: bool,
    hbCancelled: bool,
    caller: Caller,
    threads: Threads,
    gotAcquired: bool,
    token: string,
    expiresAt: Option<int>,
    lostOnce: bool,
    acquired: seq<Option<Failure>>,
    lost: seq<Failure>,
    recvDone: bool,
    releases: Releases,
    offered: nat,
    delivered: nat,
    collected: nat)

  datatype Action =
    | CtxCancel
    | CallerTakes
    | CallerCancels
    | Recv(result: Result<Message, Failure>)
    | PutAcquired
    | RecvExits
    | Parks
    | TickChosen
    | Tick(sent: Option<Failure>)
    | HeartStops
    | Check(who: Who)
    | Report(who: Who)
    | TakeLost
    | Release(step: ReleaseAction)

  const CAPACITY := 1

  const START := State(false, false, Selecting, Threads(Waiting, Idle), false, "", None, false, [], [], false,
                       NO_RELEASES, 0, 0, 0)

  /** recvLoop after Recv has returned. */
  function Received(s: State, result: Result<Message, Failure>): (s': State)
    ensures s' == s.(token := s'.token, expiresAt := s'.expiresAt, gotAcquired := s'.gotAcquired,
                     threads := s.threads.(receiver := s'.threads.receiver))
  {
    match result
    case Err(e) => s.(threads := s.threads.(receiver := if s.gotAcquired then Losing(e) else Offering(Some(e))))
    case Ok(Acquired(token, expiresAt)) =>
      s.(token := token,
      expiresAt := if expiresAt.Some? then expiresAt else s.expiresAt,
      gotAcquired := true,
      threads := s.threads.(receiver := if s.gotAcquired then Waiting else Offering(None)))
    case Ok(TtlExtended(expiresAt)) => s.(expiresAt := if expiresAt.Some? then expiresAt else s.expiresAt)
    case Ok(QueuePosition) => s
  }

  /** The select of acquireLock, taking from the acquired channel. */
  function Taken(s: State): (s': State)
    requires s.acquired != []
    ensures s' == s.(acquired := s.acquired[1..], hbCancelled := s'.hbCancelled, caller := s'.caller,
                     threads := s'.threads)
  {
    var s' := s.(acquired := s.acquired[1..]);
    match s.acquired[0]
    case Some(e) => s'.(hbCancelled := true, caller := Failed(e))
    case None => s'.(threads := s.threads.(heart := Waiting), caller := Holding)
  }

  /** lostOnce.Do around a send that gives up when the channel is full. */
  function Reported(s: State, e: Failure): (s': State)
    ensures s' == s.(lostOnce := true, lost := s'.lost, delivered := s'.delivered)
  {
    if s.lostOnce then s
    else if |s.lost| < CAPACITY then s.(lostOnce := true, lost := s.lost + [e], delivered := s.delivered + 1)
    else s.(lostOnce := true)
  }

  predicate SameTold(s: State, s': State)
  {
    s'.token == s.token && s'.expiresAt == s.expiresAt && s'.gotAcquired == s.gotAcquired
  }

  // The steps of each goroutine; None where a step cannot be taken.

  function CallerStep(s: State, a: Action): (r: Option<State>)
    ensures r.Some? ==> SameTold(s, r.value) && r.value.offered == s.offered && r.value.releases == s.releases
  {
    match a
    case CallerTakes => if s.caller.Selecting? && s.acquired != [] then Some(Taken(s)) else None
    case CallerCancels =>
      if s.caller.Selecting? && s.ctxDone then Some(s.(hbCancelled := true, caller := Cancelled)) else None
    case TakeLost => if s.lost != [] then Some(s.(lost := s.lost[1..], collected := s.collected + 1)) else None
    case _ => None
  }

  function ReceiverStep(s: State, a: Action): (r: Option<State>)
    ensures r.Some? ==>
              && r.value.releases == s.releases
              && r.value.hbCancelled == s.hbCancelled && r.value.ctxDone == s.ctxDone
              && r.value.caller == s.caller && r.value.threads.heart == s.threads.heart
              && r.value.lostOnce == s.lostOnce && r.value.lost == s.lost
              && r.value.delivered == s.delivered && r.value.collected == s.collected
              && (s.gotAcquired ==> r.value.gotAcquired) && (s.recvDone ==> r.value.recvDone)
              && (!a.Recv? ==> SameTold(s, r.value))
              && r.value.offered == s.offered + if a.PutAcquired? then 1 else 0
  {
    match a
    case Recv(result) => if s.threads.receiver.Waiting? then Some(Received(s, result)) else None
    case PutAcquired =>
      if s.threads.receiver.Offering? && |s.acquired| < CAPACITY then
        Some(s.(acquired := s.acquired + [s.threads.receiver.value], offered := s.offered + 1,
             threads := s.threads.(receiver := if s.threads.receiver.value.Some? then Leaving else Waiting)))
      else None
    case RecvExits =>
      if s.threads.receiver.Leaving? then Some(s.(threads := s.threads.(receiver := Gone), recvDone := true))
      else None
    case _ => None
  }

  /** The heartbeat's context is done. */
  predicate Stopping(s: State)
  {
    s.hbCancelled || s.releases.stopped
  }

  /**
   A tick that is ready together with the end of the context may be chosen; a select that was parked is woken
   by what comes first.
   */
  function HeartStep(s: State, a: Action): (r: Option<State>)
    ensures r.Some? ==> SameTold(s, r.value) && r.value.offered == s.offered && r.value.releases == s.releases
  {
    match a
    case Parks =>
      if s.threads.heart.Waiting? && !Stopping(s) then Some(s.(threads := s.threads.(heart := Parked))) else None
    case TickChosen =>
      if s.threads.heart.Waiting? || (s.threads.heart.Parked? && !Stopping(s)) then
        Some(s.(threads := s.threads.(heart := Due)))
      else None
    case Tick(sent) =>
      if s.threads.heart.Due? then
        Some(s.(threads := s.threads.(heart := if sent.Some? then Losing(sent.value) else Waiting)))
      else None
    case HeartStops =>
      if (s.threads.heart.Waiting? || s.threads.heart.Parked?) && Stopping(s) then
        Some(s.(threads := s.threads.(heart := Gone)))
      else None
    case _ => None
  }

  function ReportStep(s: State, a: Action): (r: Option<State>)
    ensures r.Some? ==>
              && r.value.hbCancelled == s.hbCancelled && r.value.recvDone == s.recvDone && r.value.caller == s.caller
              && SameTold(s, r.value) && r.value.offered == s.offered && r.value.releases == s.releases
              && r.value.ctxDone == s.ctxDone && Beating(r.value.threads.heart) == Beating(s.threads.heart)
  {
    match a
    case Check(who) =>
      if PlaceOf(s.threads, who).Losing? then
        var next := if s.releases.released then AfterReport(who) else Reporting(PlaceOf(s.threads, who).failure);
        Some(s.(threads := MoveTo(s.threads, who, next)))
      else None
    case Report(who) =>
      if PlaceOf(s.threads, who).Reporting? then
        Some(Reported(s, PlaceOf(s.threads, who).failure).(threads := MoveTo(s.threads, who, AfterReport(who))))
      else None
    case _ => None
  }

  /** One atomic step of the whole. */
  function Apply(s: State, a: Action): Option<State>
  {
    match a
    case CtxCancel => Some(s.(ctxDone := true, hbCancelled := true))
    case CallerTakes | CallerCancels | TakeLost => CallerStep(s, a)
    case Recv(_) | PutAcquired | RecvExits => ReceiverStep(s, a)
    case Parks | TickChosen | Tick(_) | HeartStops => HeartStep(s, a)
    case Check(_) | Report(_) => ReportStep(s, a)
    case Release(step) =>
      if s.caller.Holding? && ReleaseStep(s.releases, step, s.recvDone).Some? then
        Some(s.(releases := ReleaseStep(s.releases, step, s.recvDone).value))
      else None
  }

  /** The state after a run from the start, or None when some step of it could not be taken. */
  function Run(acts: seq<Action>): Option<State>
  {
    Runs.Run(START, Apply, acts)
  }

  // The invariant of every run.

  /** The acquired channel: one value at most ever enters it, and none while the loop still owes it. */
  predicate Handover(s: State)
  {
    && |s.acquired| <= s.offered <= 1
    && (s.caller.Selecting? ==> |s.acquired| == s.offered)
    && (s.threads.receiver.Offering? ==> s.offered == 0 && s.gotAcquired == s.threads.receiver.value.None?)
    && (s.threads.receiver.Waiting? ==> s.offered == if s.gotAcquired then 1 else 0)
    && (s.threads.receiver.Losing? || s.threads.receiver.Reporting? ==> s.gotAcquired && s.offered == 1)
    && (s.threads.receiver.Leaving? || s.threads.receiver.Gone? ==> s.offered == 1)
    && (s.acquired != [] ==> s.acquired[0].None? == s.gotAcquired)
    && !s.threads.receiver.Idle? && !s.threads.receiver.Parked? && !s.threads.receiver.Due?
    && (s.recvDone <==> s.threads.receiver.Gone?)
  }

  predicate Ownership(s: State)
  {
    && (s.caller.Holding? ==> s.gotAcquired && s.offered == 1)
    && (!s.caller.Holding? ==> s.threads.heart.Idle? && s.releases == NO_RELEASES)
    && !s.threads.heart.Offering? && !s.threads.heart.Leaving?
    && (s.ctxDone || s.caller.Failed? <==> s.hbCancelled)
  }

  /** The lost channel: lostOnce guards its only value. */
  predicate Loss(s: State)
  {
    && s.delivered == s.collected + |s.lost|
    && s.delivered == if s.lostOnce then 1 else 0
  }

  ghost predicate Inv(s: State)
  {
    Handover(s) && Ownership(s) && Loss(s) && FirstCallActs(s.releases, s.recvDone)
  }

  lemma CallerAndHeartKeep(s: State, a: Action)
    requires Inv(s)
    ensures CallerStep(s, a).Some? ==> Inv(CallerStep(s, a).value)
    ensures HeartStep(s, a).Some? ==> Inv(HeartStep(s, a).value)
  {
    hide FirstCallActs;
  }

  lemma ReceiverKeeps(s: State, a: Action)
    requires Inv(s) && ReceiverStep(s, a).Some?
    ensures Inv(ReceiverStep(s, a).value)
  {
    hide Handover, FirstCallActs, ReceiverStep;
    var s' := ReceiverStep(s, a).value;
    ReceiverHandover(s, a);
    DoneLater(s.releases, s.recvDone, s'.recvDone);
  }

  lemma ReceiverHandover(s: State, a: Action)
    requires Inv(s) && ReceiverStep(s, a).Some?
    ensures Handover(ReceiverStep(s, a).value)
    ensures s.offered == 1 ==> ReceiverStep(s, a).value.offered == 1
  {
    hide FirstCallActs, Ownership, Loss;
    if a.PutAcquired? {
      OfferKept(s);
    }
  }

  lemma OfferKept(s: State)
    requires Handover(s) && s.threads.receiver.Offering?
    ensures ReceiverStep(s, PutAcquired).Some? && Handover(ReceiverStep(s, PutAcquired).value)
  {
    assert s.acquired == [];
    assert s.acquired + [s.threads.receiver.value] == [s.threads.receiver.value];
  }

  lemma ReportKeeps(s: State, a: Action)
    requires Inv(s) && ReportStep(s, a).Some?
    ensures Inv(ReportStep(s, a).value)
  {
    hide Handover, Ownership, FirstCallActs, ReportStep;
    var s' := ReportStep(s, a).value;
    ReportHandover(s, a);
    ReportLoss(s, a);
  }

  lemma ReportLoss(s: State, a: Action)
    requires Inv(s) && ReportStep(s, a).Some?
    ensures Loss(ReportStep(s, a).value)
  {
    hide Handover, Ownership, FirstCallActs, MoveTo;
  }

  lemma ReportHandover(s: State, a: Action)
    requires Inv(s) && ReportStep(s, a).Some?
    ensures Handover(ReportStep(s, a).value) && Ownership(ReportStep(s, a).value)
  {
    hide FirstCallActs, Loss, Reported;
  }

  lemma StepKeeps(s: State, a: Action)
    requires Inv(s) && Apply(s, a).Some?
    ensures Inv(Apply(s, a).value)
  {
    hide CallerStep, ReceiverStep, HeartStep, ReportStep, ReleaseStep, FirstCallActs;
    CallerAndHeartKeep(s, a);
    if a.Recv? || a.PutAcquired? || a.RecvExits? {
      ReceiverKeeps(s, a);
    } else if a.Check? || a.Report? {
      ReportKeeps(s, a);
    } else if a.Release? {
      FirstCallStillActs(s.releases, a.step, s.recvDone);
    }
  }

  lemma {:induction false} RunKeeps(acts: seq<Action>)
    requires Run(acts).Some?
    ensures Inv(Run(acts).value)
  {
    assert Inv(START);
    hide Inv, Apply;
    if acts != [] {
      var n := |acts| - 1;
      RunKeeps(acts[..n]);
      StepKeeps(Run(acts[..n]).value, acts[n]);
    }
  }
}
