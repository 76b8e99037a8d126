/**
 typescript/src/restart.ts: lockStreamFromGrpc, Lock and acquireLockWithStream. JavaScript runs one
 callback at a time, so a run is a sequence of callbacks: each is a method, and a value-level step.
 */
module TsLock {
  import opened Wrappers
  import opened LockProtocol

  /** What is called on the underlying stream. */
  datatype Call = Write(heartbeat: bool) | End

  /** The promise of acquireLockWithStream; Rejecting is between the rejection and its catch block. */
  datatype Outcome = Pending | Rejecting | Holds | Throws

  datatype Session = Session(
    sendClosed: bool,
    calls: seq<Call>,
    token: string,
    expiresAt: Option<int>,
    heartbeat: bool,
    released: bool,
    returned: bool,
    lostReported: bool,
    lost: seq<Failure>,
    receiving: bool,
    gotAcquired: bool,
    acquired: Option<bool>,
    hasSignal: bool,
    aborted: bool,
    outcome: Outcome)

  datatype Event =
    | Recv(result: Result<Message, Failure>)
    | Tick(broken: Option<Failure>)
    | AbortSignal
    | Settle
    | ReleaseCall
    | ReleaseReturns

  /** The error send throws once closeSend was called. */
  const CLOSED: Failure := 0

  // The steps on values. An event that cannot happen in a state leaves it as it is.

  function Closing(s: Session): (s': Session)
    ensures s' == s.(sendClosed := s'.sendClosed, calls := s'.calls)
  {
    if s.sendClosed then s else s.(sendClosed := true, calls := s.calls + [End])
  }

  function Losing(s: Session, e: Failure): (s': Session)
    ensures s' == s.(lostReported := s'.lostReported, lost := s'.lost)
  {
    if s.released || s.lostReported then s else s.(lostReported := true, lost := s.lost + [e])
  }

  function Failing(s: Session, e: Failure): (s': Session)
    ensures s' == s.(receiving := s'.receiving, acquired := s'.acquired,
                     lostReported := s'.lostReported, lost := s'.lost)
  {
    var s' := s.(receiving := false);
    if s.gotAcquired then Losing(s', e) else s'.(acquired := Some(false))
  }

  function Hearing(s: Session, m: Message): (s': Session)
    ensures s' == s.(token := s'.token, expiresAt := s'.expiresAt, heartbeat := s'.heartbeat,
                     gotAcquired := s'.gotAcquired, acquired := s'.acquired)
  {
    match m
    case Acquired(token, expiresAt) =>
      var s' := s.(token := token, expiresAt := expiresAt);
      if s.gotAcquired then s' else s'.(gotAcquired := true, heartbeat := true, acquired := Some(true))
    case TtlExtended(expiresAt) => if expiresAt.Some? then s.(expiresAt := expiresAt) else s
    case QueuePosition => s
  }

  function Ticking(s: Session, broken: Option<Failure>): (s': Session)
    ensures s' == s.(heartbeat := s'.heartbeat, lostReported := s'.lostReported, lost := s'.lost, calls := s'.calls)
  {
    if s.sendClosed then Losing(s.(heartbeat := false), CLOSED)
    else if broken.Some? then Losing(s.(heartbeat := false), broken.value)
    else s.(calls := s.calls + [Write(true)])
  }

  function Settling(s: Session): (s': Session)
    ensures s' == s.(sendClosed := s'.sendClosed, calls := s'.calls, outcome := s'.outcome)
    ensures s'.calls == if s.sendClosed == s'.sendClosed then s.calls else s.calls + [End]
    ensures s.sendClosed ==> s'.sendClosed
  {
    if s.outcome.Rejecting? then (if s.hasSignal then Closing(s) else s).(outcome := Throws)
    else if s.outcome.Pending? && s.acquired.Some? then s.(outcome := if s.acquired.value then Holds else Rejecting)
    else s
  }

  /** What awaits the race is about to run on, before any timer: promises go on within the turn that settles them. */
  predicate Unsettled(s: Session)
  {
    s.outcome.Rejecting? || (s.outcome.Pending? && s.acquired.Some?)
  }

  function Step(s: Session, e: Event): Session
  {
    match e
    case Recv(result) =>
      if !s.receiving then s else if result.Ok? then Hearing(s, result.value) else Failing(s, result.error)
    case Tick(broken) => if s.heartbeat && !Unsettled(s) then Ticking(s, broken) else s
    case AbortSignal =>
      if !s.hasSignal || s.aborted then s
      else s.(aborted := true, outcome := if s.outcome.Pending? then Rejecting else s.outcome)
    case Settle => Settling(s)
    case ReleaseCall =>
      if s.released || !s.outcome.Holds? then s else Closing(s.(released := true, heartbeat := false))
    case ReleaseReturns => if s.released && !s.receiving then s.(returned := true) else s
  }

  /** After the initial request was written. */
  function Begin(hasSignal: bool, aborted: bool): Session
  {
    Session(false, [Write(false)], "", None, false, false, false, false, [], true, false, None, hasSignal,
            hasSignal && aborted, if hasSignal && aborted then Rejecting else Pending)
  }

  function Run(s: Session, events: seq<Event>): Session
  {
    if events == [] then s else Step(Run(s, events[..|events| - 1]), events[|events| - 1])
  }

  // The objects.

  /** The object lockStreamFromGrpc returns; recv is the mailbox, whose results are the Recv events. */
  class LockStream {
    var sendClosed: bool
    var calls: seq<Call>

    constructor ()
      ensures !sendClosed && calls == []
    {
      sendClosed, calls := false, [];
    }

    /** broken is what stream.write throws, if it does. */
    method Send(heartbeat: bool, broken: Option<Failure>) returns (thrown: Option<Failure>)
      modifies this
      ensures sendClosed == old(sendClosed)
      ensures thrown == if sendClosed then Some(CLOSED) else broken
      ensures calls == if thrown.Some? then old(calls) else old(calls) + [Write(heartbeat)]
    {
      if sendClosed { return Some(CLOSED); }
      if broken.Some? { return broken; }
      calls := calls + [Write(heartbeat)];
      return None;
    }

    method CloseSend()
      modifies this
      ensures sendClosed && calls == if old(sendClosed) then old(calls) else old(calls) + [End]
    {
      if sendClosed { return; }
      sendClosed := true;
      calls := calls + [End];
    }
  }

  class Lock {
    const stream: LockStream
    var token: string
    var expiresAt: Option<int>
    var released: bool
    var returned: bool
    var lostReported: bool
    var heartbeatTimer: bool
    var receiving: bool
    var lost: seq<Failure>

    constructor (stream: LockStream)
      ensures this.stream == stream && token == "" && expiresAt == None
      ensures !released && !returned && !lostReported && !heartbeatTimer && receiving && lost == []
    {
      this.stream := stream;
      token, expiresAt, released, returned, lostReported := "", None, false, false, false;
      heartbeatTimer, receiving, lost := false, true, [];
    }

    /** release, up to the point where it waits for the receive loop; a later call returns at once. */
    method Release()
      modifies this, stream
      ensures token == old(token) && expiresAt == old(expiresAt) && receiving == old(receiving)
      ensures returned == old(returned)
      ensures lostReported == old(lostReported) && lost == old(lost)
      ensures released && heartbeatTimer == (old(released) && old(heartbeatTimer))
      ensures stream.sendClosed == (old(stream.sendClosed) || !old(released))
      ensures stream.calls == if old(released) || old(stream.sendClosed) then old(stream.calls)
                              else old(stream.calls) + [End]
    {
      if released { return; }
      released := true;
      heartbeatTimer := false;
      stream.CloseSend();
    }

    /** The rest of release, when what it awaits has settled: the promise of the end of the receive loop. */
    method FinishRelease()
      requires released
      modifies this`returned
      ensures returned == (old(returned) || !receiving)
    {
      if receiving { return; }
      returned := true;
    }

    method ReportLost(e: Failure)
      modifies this`lostReported, this`lost
      ensures lostReported == (old(lostReported) || !released)
      ensures lost == if released || old(lostReported) then old(lost) else old(lost) + [e]
    {
      if released || lostReported { return; }
      lostReported := true;
      lost := lost + [e];
    }

    /** The callback of the heartbeat interval. */
    method OnTick(broken: Option<Failure>)
      modifies this`heartbeatTimer, this`lostReported, this`lost, stream
      ensures stream.sendClosed == old(stream.sendClosed)
      ensures if stream.sendClosed || broken.Some? then
                && !heartbeatTimer && stream.calls == old(stream.calls)
                && lostReported == (old(lostReported) || !released)
                && lost == if released || old(lostReported) then old(lost)
                           else old(lost) + [if stream.sendClosed then CLOSED else broken.value]
              else
                && heartbeatTimer == old(heartbeatTimer) && stream.calls == old(stream.calls) + [Write(true)]
                && lostReported == old(lostReported) && lost == old(lost)
    {
      var thrown := stream.Send(true, broken);
      if thrown.Some? {
        heartbeatTimer := false;
        ReportLost(thrown.value);
      }
    }
  }

  /** One call of acquireLockWithStream: its lock and the variables of its closures. */
  class Acquisition {
    const lock: Lock
    const hasSignal: bool
    var gotAcquired: bool
    var acquired: Option<bool>
    var aborted: bool
    var outcome: Outcome

    function View(): Session
      reads this, lock, lock.stream
    {
      Session(lock.stream.sendClosed, lock.stream.calls, lock.token, lock.expiresAt, lock.heartbeatTimer,
              lock.released, lock.returned, lock.lostReported, lock.lost, lock.receiving,
              gotAcquired, acquired, hasSignal, aborted, outcome)
    }

    constructor (stream: LockStream, hasSignal: bool, aborted: bool)
      requires !stream.sendClosed && stream.calls == [Write(false)]
      ensures View() == Begin(hasSignal, aborted) && lock.stream == stream && fresh(lock)
    {
      lock := new Lock(stream);
      this.hasSignal := hasSignal;
      gotAcquired, acquired := false, None;
      this.aborted, outcome := hasSignal && aborted, if hasSignal && aborted then Rejecting else Pending;
    }

    /** One turn of the receive loop. */
    method OnRecv(result: Result<Message, Failure>)
      modifies this, lock
      ensures View() == Step(old(View()), Recv(result))
    {
      if !lock.receiving { return; }
      match result {
        case Err(e) =>
          if !gotAcquired { acquired := Some(false); } else { lock.ReportLost(e); }
          lock.receiving := false;
        case Ok(Acquired(token, expiresAt)) =>
          lock.token, lock.expiresAt := token, expiresAt;
          if !gotAcquired {
            gotAcquired := true;
            lock.heartbeatTimer := true;
            acquired := Some(true);
          }
        case Ok(TtlExtended(expiresAt)) =>
          if expiresAt.Some? { lock.expiresAt := expiresAt; }
        case Ok(QueuePosition) =>
      }
    }

    /** A timer callback, which does not come before the promises that are settled have run on. */
    method OnTick(broken: Option<Failure>)
      modifies lock, lock.stream
      ensures View() == Step(old(View()), Tick(broken))
    {
      if outcome.Rejecting? || (outcome.Pending? && acquired.Some?) { return; }
      if lock.heartbeatTimer { lock.OnTick(broken); }
    }

    method OnAbort()
      modifies this
      ensures View() == Step(old(View()), AbortSignal)
    {
      if !hasSignal || aborted { return; }
      aborted := true;
      if outcome.Pending? { outcome := Rejecting; }
    }

    /** What awaits the race runs on. */
    method OnSettle()
      modifies this, lock.stream
      ensures View() == Step(old(View()), Settle)
    {
      if outcome.Rejecting? {
        if hasSignal { lock.stream.CloseSend(); }
        outcome := Throws;
      } else if outcome.Pending? && acquired.Some? {
        outcome := if acquired.value then Holds else Rejecting;
      }
    }

    method OnRelease()
      modifies lock, lock.stream
      ensures View() == Step(old(View()), ReleaseCall)
    {
      if outcome.Holds? { lock.Release(); }
    }

    method OnReleaseReturns()
      modifies lock
      ensures View() == Step(old(View()), ReleaseReturns)
    {
      if lock.released { lock.FinishRelease(); }
    }
  }

  /** The initial request goes out first; when it throws there is no lock and no receive loop. */
  method AcquireLockWithStream(stream: LockStream, hasSignal: bool, aborted: bool, broken: Option<Failure>)
    returns (a: Acquisition?)
    requires !stream.sendClosed && stream.calls == []
    modifies stream
    ensures broken.Some? ==> a == null && stream.calls == [] && !stream.sendClosed
    ensures broken.None? ==> a != null && a.lock.stream == stream && a.View() == Begin(hasSignal, aborted)
  {
    var thrown := stream.Send(false, broken);
    if thrown.Some? { return null; }
    a := new Acquisition(stream, hasSignal, aborted);
  }

  // The invariant of every run.

  function Beats(n: nat): seq<Call>
  {
    if n == 0 then [] else Beats(n - 1) + [Write(true)]
  }

  /** The initial request, heartbeats, and then at most one End, with nothing after it. */
  function Wire(n: nat, closed: bool): seq<Call>
  {
    [Write(false)] + Beats(n) + if closed then [End] else []
  }

  ghost predicate WireRight(s: Session)
  {
    exists n: nat :: s.calls == Wire(n, s.sendClosed) && (n > 0 ==> s.gotAcquired)
  }

  predicate Inv(s: Session)
  {
    && |s.lost| == (if s.lostReported then 1 else 0)
    && (s.lostReported || s.heartbeat || s.outcome.Holds? || s.acquired == Some(true) ==> s.gotAcquired)
    && (s.gotAcquired ==> s.acquired == Some(true))
    && (s.acquired == Some(false) ==> !s.receiving)
    && (!s.receiving ==> s.acquired.Some?)
    && (s.released ==> s.outcome.Holds? && !s.heartbeat)
    && (s.returned ==> s.released && !s.receiving)
    && (s.aborted ==> s.hasSignal && !s.outcome.Pending?)
    && (s.outcome.Rejecting? || s.outcome.Throws? ==> s.aborted || s.acquired == Some(false))
    && (s.sendClosed <==> s.released || (s.outcome.Throws? && s.hasSignal))
  }

  lemma WireGrows(s: Session, s': Session)
    requires WireRight(s)
    requires s.gotAcquired ==> s'.gotAcquired
    requires || (s'.calls == s.calls && s'.sendClosed == s.sendClosed)
             || (!s.sendClosed && s'.sendClosed && s'.calls == s.calls + [End])
             || (!s.sendClosed && !s'.sendClosed && s'.gotAcquired && s'.calls == s.calls + [Write(true)])
    ensures WireRight(s')
  {
    var n: nat :| s.calls == Wire(n, s.sendClosed) && (n > 0 ==> s.gotAcquired);
    assert Wire(n, false) + [Write(true)] == Wire(n + 1, false);
    assert Wire(n, false) + [End] == Wire(n, true);
  }

  lemma ReceivingKeeps(s: Session, m: Message, e: Failure)
    requires Inv(s) && WireRight(s) && s.receiving
    ensures Inv(Hearing(s, m)) && WireRight(Hearing(s, m))
    ensures Inv(Failing(s, e)) && WireRight(Failing(s, e))
  {
    hide WireRight;
    WireGrows(s, Hearing(s, m));
    WireGrows(s, Failing(s, e));
  }

  lemma TickingKeeps(s: Session, broken: Option<Failure>)
    requires Inv(s) && WireRight(s) && s.heartbeat
    ensures Inv(Ticking(s, broken)) && WireRight(Ticking(s, broken))
  {
    hide WireRight;
    WireGrows(s, Ticking(s, broken));
  }

  lemma SettlingKeeps(s: Session)
    requires Inv(s) && WireRight(s)
    ensures Inv(Settling(s)) && WireRight(Settling(s))
  {
    hide WireRight;
    WireGrows(s, Settling(s));
  }

  lemma StepKeeps(s: Session, e: Event)
    requires Inv(s) && WireRight(s)
    ensures Inv(Step(s, e)) && WireRight(Step(s, e))
  {
    hide WireRight, Hearing, Failing, Ticking, Settling;
    match e
    case Recv(Ok(m)) => if s.receiving { ReceivingKeeps(s, m, CLOSED); }
    case Recv(Err(f)) => if s.receiving { ReceivingKeeps(s, QueuePosition, f); }
    case Tick(broken) => if s.heartbeat && !Unsettled(s) { TickingKeeps(s, broken); }
    case AbortSignal => WireGrows(s, Step(s, e));
    case Settle => SettlingKeeps(s);
    case ReleaseCall => WireGrows(s, Step(s, e));
    case ReleaseReturns => WireGrows(s, Step(s, e));
  }

  lemma BeginHolds(hasSignal: bool, aborted: bool)
    ensures Inv(Begin(hasSignal, aborted)) && WireRight(Begin(hasSignal, aborted))
  {
    assert Begin(hasSignal, aborted).calls == Wire(0, false);
  }

  lemma {:induction false} RunKeeps(s: Session, events: seq<Event>)
    requires Inv(s) && WireRight(s)
    ensures Inv(Run(s, events)) && WireRight(Run(s, events))
  {
    hide Inv, WireRight, Step;
    if events != [] {
      RunKeeps(s, events[..|events| - 1]);
      StepKeeps(Run(s, events[..|events| - 1]), events[|events| - 1]);
    }
  }

  // What follows for every run.

  lemma {:induction false} RunSplits(s: Session, first: seq<Event>, second: seq<Event>)
    ensures Run(s, first + second) == Run(Run(s, first), second)
    decreases |second|
  {
    hide Step;
    if second == [] {
      assert first + second == first;
    } else {
      assert (first + second)[..|first + second| - 1] == first + second[..|second| - 1];
      RunSplits(s, first, second[..|second| - 1]);
    }
  }

  lemma RunOne(s: Session, e: Event)
    ensures Run(s, [e]) == Step(s, e)
  {
    hide Step;
    assert [e][..0] == [] && Run(s, []) == s;
  }

  lemma RunTwo(s: Session, d: Event, e: Event)
    ensures Run(s, [d, e]) == Step(Step(s, d), e)
  {
    hide Step;
    assert [d, e] == [d] + [e];
    RunSplits(s, [d], [e]);
    RunOne(s, d);
    RunOne(Step(s, d), e);
  }

  /** Whatever is called on the stream is the request, heartbeats once acquired, and one End at most, last. */
  lemma StreamCalls(hasSignal: bool, aborted: bool, events: seq<Event>, i: nat, j: nat)
    ensures var s := Run(Begin(hasSignal, aborted), events);
            && (i < j < |s.calls| ==> s.calls[i].Write?)
            && (i < |s.calls| && s.calls[i] == Write(true) ==> s.gotAcquired)
            && (s.sendClosed <==> End in s.calls)
            && (End in s.calls <==> s.released || (s.outcome.Throws? && s.hasSignal))
  {
    hide Run, Step;
    BeginHolds(hasSignal, aborted);
    RunKeeps(Begin(hasSignal, aborted), events);
    var s := Run(Begin(hasSignal, aborted), events);
    var n: nat :| s.calls == Wire(n, s.sendClosed) && (n > 0 ==> s.gotAcquired);
    BeatsAreWrites(n);
    assert s.sendClosed ==> s.calls[|s.calls| - 1] == End;
  }

  lemma {:induction false} BeatsAreWrites(n: nat)
    ensures |Beats(n)| == n && forall i :: 0 <= i < n ==> Beats(n)[i] == Write(true)
  {
    if n > 0 { BeatsAreWrites(n - 1); }
  }

  /** What a callback reports as a loss: a failing receive or heartbeat, after ACQUIRED. */
  function LossOf(s: Session, e: Event): Option<Failure>
  {
    match e
    case Recv(Err(f)) => if s.receiving && s.gotAcquired then Some(f) else None
    case Tick(broken) => if !s.heartbeat || Unsettled(s) then None else if s.sendClosed then Some(CLOSED) else broken
    case _ => None
  }

  /** The first loss before release. */
  function FirstLoss(s: Session, events: seq<Event>): seq<Failure>
  {
    if events == [] then []
    else
      var before := events[..|events| - 1];
      var first := FirstLoss(s, before);
      if first != [] || Run(s, before).released then first
      else match LossOf(Run(s, before), events[|events| - 1])
        case Some(f) => [f]
        case None => []
  }

  lemma LossStep(s: Session, e: Event)
    requires Inv(s)
    ensures Step(s, e).lost == if s.released || s.lost != [] || LossOf(s, e).None? then s.lost else [LossOf(s, e).value]
  {
    hide Hearing, Failing, Ticking, Settling, Losing;
    match e
    case Recv(Err(f)) => if s.receiving { StepLoss(s, f, None); }
    case Tick(broken) => if s.heartbeat { StepLoss(s, CLOSED, broken); }
    case _ =>
  }

  lemma StepLoss(s: Session, f: Failure, broken: Option<Failure>)
    requires Inv(s)
    ensures Failing(s, f).lost == if s.released || s.lost != [] || !s.gotAcquired then s.lost else [f]
    ensures Ticking(s, broken).lost == if s.released || s.lost != [] then s.lost
                                       else if s.sendClosed then [CLOSED]
                                       else if broken.Some? then [broken.value] else []
  {}

  /** lost resolves once at most, with the first loss after ACQUIRED and before release, or never. */
  lemma {:induction false} LostIsFirstLoss(hasSignal: bool, aborted: bool, events: seq<Event>)
    ensures var s := Run(Begin(hasSignal, aborted), events);
            s.lost == FirstLoss(Begin(hasSignal, aborted), events) && |s.lost| <= 1 && (s.lost != [] ==> s.gotAcquired)
  {
    hide Step, LossOf, WireRight;
    var s0 := Begin(hasSignal, aborted);
    BeginHolds(hasSignal, aborted);
    RunKeeps(s0, events);
    if events != [] {
      var before := events[..|events| - 1];
      LostIsFirstLoss(hasSignal, aborted, before);
      RunKeeps(s0, before);
      LossStep(Run(s0, before), events[|events| - 1]);
    }
  }

  /** Once release has begun nothing more is lost and nothing more is called on the stream. */
  lemma {:induction false} SilentAfterRelease(s: Session, events: seq<Event>)
    requires Inv(s) && WireRight(s) && s.released
    ensures var s' := Run(s, events); s'.released && s'.lost == s.lost && s'.calls == s.calls && !s'.heartbeat
  {
    hide Step, WireRight;
    if events != [] {
      var before := events[..|events| - 1];
      SilentAfterRelease(s, before);
      RunKeeps(s, before);
      ReleasedStep(Run(s, before), events[|events| - 1]);
    }
  }

  lemma ReleasedStep(s: Session, e: Event)
    requires Inv(s) && s.released
    ensures var s' := Step(s, e); s'.released && s'.lost == s.lost && s'.calls == s.calls && !s'.heartbeat
  {
    hide Hearing, Failing, Ticking, Settling, Closing;
    match e
    case Recv(Err(f)) => StepLoss(s, f, None);
    case Recv(Ok(m)) => NothingNew(s, m);
    case Settle => NothingNew(s, QueuePosition);
    case _ =>
  }

  lemma NothingNew(s: Session, m: Message)
    ensures s.gotAcquired ==> Hearing(s, m).heartbeat == s.heartbeat
    ensures s.outcome.Holds? ==> Settling(s) == s
  {}

  /** An ACQUIRED after the caller gave up starts a heartbeat that ends at its first tick, writing nothing. */
  lemma OrphanStops(s: Session, broken: Option<Failure>)
    requires Inv(s) && s.outcome.Throws? && s.hasSignal && s.heartbeat
    ensures var s' := Step(s, Tick(broken)); !s'.heartbeat && s'.calls == s.calls && s'.lostReported
  {}

  // The end of release.

  predicate RecvFails(e: Event)
  {
    e.Recv? && e.result.Err?
  }

  lemma ReceivingStep(s: Session, e: Event)
    requires s.receiving && !s.returned && !RecvFails(e)
    ensures Step(s, e).receiving && !Step(s, e).returned
  {
    hide Hearing, Failing, Ticking, Settling, Closing;
    match e
    case Recv(_) =>
    case Tick(_) =>
    case AbortSignal =>
    case Settle =>
    case ReleaseCall =>
    case ReleaseReturns =>
  }

  lemma {:induction false} StillReceiving(s: Session, events: seq<Event>)
    requires s.receiving && !s.returned && forall i :: 0 <= i < |events| ==> !RecvFails(events[i])
    ensures Run(s, events).receiving && !Run(s, events).returned
  {
    hide Step, RecvFails;
    if events != [] {
      StillReceiving(s, events[..|events| - 1]);
      ReceivingStep(Run(s, events[..|events| - 1]), events[|events| - 1]);
    }
  }

  ghost predicate Completes(s0: Session, events: seq<Event>, more: seq<Event>)
  {
    Run(s0, events + more).returned && forall i :: 0 <= i < |more| ==> !RecvFails(more[i])
  }

  /**
   The promise of the release that acted settles without a failing receive if and only if the receive loop
   has ended already, and with one in any case.
   */
  lemma ReleaseCompletes(hasSignal: bool, aborted: bool, events: seq<Event>, e: Failure)
    ensures var s0 := Begin(hasSignal, aborted);
            var s := Run(s0, events);
            s.released ==>
              && ((exists more :: Completes(s0, events, more)) <==> !s.receiving)
              && Run(s0, events + [Recv(Err(e)), ReleaseReturns]).returned
  {
    assert !RecvFails(ReleaseReturns);
    hide Run, WireRight, RecvFails;
    var s0 := Begin(hasSignal, aborted);
    var s := Run(s0, events);
    BeginHolds(hasSignal, aborted);
    RunKeeps(s0, events);
    if s.released {
      RunTwo(s, Recv(Err(e)), ReleaseReturns);
      RunSplits(s0, events, [Recv(Err(e)), ReleaseReturns]);
      FailingEnds(s, e);
      if !s.receiving {
        RunSplits(s0, events, [ReleaseReturns]);
        RunOne(s, ReleaseReturns);
        assert Completes(s0, events, [ReleaseReturns]);
      }
      forall more | Completes(s0, events, more) ensures !s.receiving {
        RunSplits(s0, events, more);
        if s.receiving {
          StillReceiving(s, more);
        }
      }
    }
  }

  lemma FailingEnds(s: Session, e: Failure)
    requires s.released
    ensures var s' := Step(s, Recv(Err(e))); s'.released && !s'.receiving
  {
    hide Losing;
  }

  // Heartbeats: how long they go on.

  function HeartbeatsIn(calls: seq<Call>): nat
  {
    if calls == [] then 0
    else HeartbeatsIn(calls[..|calls| - 1]) + if calls[|calls| - 1] == Write(true) then 1 else 0
  }

  lemma OneMoreCall(calls: seq<Call>, c: Call)
    ensures HeartbeatsIn(calls + [c]) == HeartbeatsIn(calls) + if c == Write(true) then 1 else 0
  {
    assert (calls + [c])[..|calls|] == calls;
  }

  /**
   The timer runs on an open stream, or ACQUIRED can still come and start it there, and no abort is about to
   close the stream.
   */
  predicate MayBeat(s: Session)
  {
    !s.sendClosed && !(s.hasSignal && s.outcome.Rejecting?) && (s.heartbeat || (!s.gotAcquired && s.receiving))
  }

  lemma NoBeatStep(s: Session, e: Event)
    requires !MayBeat(s)
    ensures !MayBeat(Step(s, e)) && HeartbeatsIn(Step(s, e).calls) == HeartbeatsIn(s.calls)
  {
    hide HeartbeatsIn, Hearing, Failing, Ticking, Settling;
    OneMoreCall(s.calls, End);
    match e
    case Recv(Ok(m)) => NothingStarts(s, m, None);
    case Tick(broken) => NothingStarts(s, QueuePosition, broken);
    case Settle => NothingStarts(s, QueuePosition, None);
    case _ =>
  }

  lemma NothingStarts(s: Session, m: Message, broken: Option<Failure>)
    requires !MayBeat(s)
    ensures !MayBeat(Settling(s)) && (s.receiving ==> !MayBeat(Hearing(s, m)))
    ensures s.heartbeat && !Unsettled(s) ==> Ticking(s, broken).calls == s.calls
  {}

  lemma {:induction false} NoBeatRun(s: Session, events: seq<Event>)
    requires !MayBeat(s)
    ensures !MayBeat(Run(s, events)) && HeartbeatsIn(Run(s, events).calls) == HeartbeatsIn(s.calls)
  {
    hide MayBeat, Step, HeartbeatsIn;
    if events != [] {
      NoBeatRun(s, events[..|events| - 1]);
      NoBeatStep(Run(s, events[..|events| - 1]), events[|events| - 1]);
    }
  }

  /** The callbacks that write a heartbeat where one may still be written. */
  function NextBeat(s: Session): seq<Event>
  {
    (if s.heartbeat then [] else [Recv(Ok(Acquired("", None)))]) + [Settle, Tick(None)]
  }

  lemma SettledBeat(s: Session)
    requires Inv(s) && MayBeat(s) && s.heartbeat
    ensures HeartbeatsIn(Step(Step(s, Settle), Tick(None)).calls) == HeartbeatsIn(s.calls) + 1
  {
    hide HeartbeatsIn, Hearing, Failing;
    OneMoreCall(s.calls, Write(true));
  }

  lemma AcquiredStarts(s: Session)
    requires Inv(s) && MayBeat(s) && !s.heartbeat
    ensures var s' := Step(s, Recv(Ok(Acquired("", None))));
            Inv(s') && MayBeat(s') && s'.heartbeat && s'.calls == s.calls
  {}

  lemma NextBeatWrites(s: Session)
    requires Inv(s) && MayBeat(s)
    ensures HeartbeatsIn(Run(s, NextBeat(s)).calls) == HeartbeatsIn(s.calls) + 1
  {
    hide Run, HeartbeatsIn, Step, Inv, MayBeat;
    if s.heartbeat {
      assert NextBeat(s) == [Settle, Tick(None)];
      RunTwo(s, Settle, Tick(None));
      SettledBeat(s);
    } else {
      var acquired := Recv(Ok(Acquired("", None)));
      RunSplits(s, [acquired], [Settle, Tick(None)]);
      RunOne(s, acquired);
      AcquiredStarts(s);
      RunTwo(Step(s, acquired), Settle, Tick(None));
      SettledBeat(Step(s, acquired));
    }
  }

  /** On some continuation of a run another heartbeat is written exactly when MayBeat says so. */
  lemma MoreHeartbeatsExactly(hasSignal: bool, aborted: bool, events: seq<Event>)
    ensures var s0 := Begin(hasSignal, aborted);
            var s := Run(s0, events);
            (exists more :: HeartbeatsIn(Run(s0, events + more).calls) > HeartbeatsIn(s.calls)) <==> MayBeat(s)
  {
    hide Run, HeartbeatsIn, MayBeat, Inv, WireRight;
    var s0 := Begin(hasSignal, aborted);
    var s := Run(s0, events);
    BeginHolds(hasSignal, aborted);
    RunKeeps(s0, events);
    if MayBeat(s) {
      NextBeatWrites(s);
      RunSplits(s0, events, NextBeat(s));
      assert HeartbeatsIn(Run(s0, events + NextBeat(s)).calls) > HeartbeatsIn(s.calls);
    } else {
      forall more ensures HeartbeatsIn(Run(s0, events + more).calls) == HeartbeatsIn(s.calls) {
        RunSplits(s0, events, more);
        NoBeatRun(s, more);
      }
    }
  }

  /** The tick finds the stream closed or broken. */
  predicate FailingTick(s: Session, e: Event)
  {
    e.Tick? && s.heartbeat && !Unsettled(s) && (s.sendClosed || e.broken.Some?)
  }

  predicate TickFailed(s0: Session, events: seq<Event>)
  {
    && events != []
    && var before := events[..|events| - 1];
       TickFailed(s0, before) || FailingTick(Run(s0, before), events[|events| - 1])
  }

  predicate TimerRight(s: Session, failed: bool)
  {
    (s.heartbeat <==> s.gotAcquired && !s.released && !failed) && (failed ==> s.gotAcquired)
  }

  lemma TimerStep(s: Session, e: Event, failed: bool)
    requires Inv(s) && TimerRight(s, failed)
    ensures TimerRight(Step(s, e), failed || FailingTick(s, e))
  {
    hide Losing, Failing, Settling, Closing;
  }

  /** The timer runs from ACQUIRED on until release or the first tick that fails, and for no other reason. */
  lemma {:induction false} TimerRunsExactly(hasSignal: bool, aborted: bool, events: seq<Event>)
    ensures TimerRight(Run(Begin(hasSignal, aborted), events), TickFailed(Begin(hasSignal, aborted), events))
  {
    hide Step, WireRight, Inv, FailingTick;
    var s0 := Begin(hasSignal, aborted);
    if events != [] {
      var before := events[..|events| - 1];
      TimerRunsExactly(hasSignal, aborted, before);
      BeginHolds(hasSignal, aborted);
      RunKeeps(s0, before);
      TimerStep(Run(s0, before), events[|events| - 1], TickFailed(s0, before));
    }
  }

  /** Once the signal is aborted, heartbeats go on exactly if the lock is held and its timer runs. */
  lemma HeartbeatsAfterAbort(hasSignal: bool, aborted: bool, events: seq<Event>)
    ensures var s0 := Begin(hasSignal, aborted);
            var s := Run(s0, events);
            s.aborted ==>
              ((exists more :: HeartbeatsIn(Run(s0, events + more).calls) > HeartbeatsIn(s.calls))
               <==> s.outcome.Holds? && s.heartbeat)
  {
    hide Run, HeartbeatsIn, WireRight;
    BeginHolds(hasSignal, aborted);
    RunKeeps(Begin(hasSignal, aborted), events);
    MoreHeartbeatsExactly(hasSignal, aborted, events);
  }

  /**
   Once the lock is lost, heartbeats go on exactly if its timer runs on an open stream that no abort is about
   to close.
   */
  lemma HeartbeatsAfterLoss(hasSignal: bool, aborted: bool, events: seq<Event>)
    ensures var s0 := Begin(hasSignal, aborted);
            var s := Run(s0, events);
            s.lost != [] ==>
              ((exists more :: HeartbeatsIn(Run(s0, events + more).calls) > HeartbeatsIn(s.calls))
               <==> s.heartbeat && !s.sendClosed && !(s.hasSignal && s.outcome.Rejecting?))
  {
    hide Run, HeartbeatsIn, WireRight;
    BeginHolds(hasSignal, aborted);
    RunKeeps(Begin(hasSignal, aborted), events);
    MoreHeartbeatsExactly(hasSignal, aborted, events);
  }

  /** The lock is held, and then the signal aborted. */
  const HELD_ABORTED: seq<Event> := [Recv(Ok(Acquired("t", None))), Settle, AbortSignal]

  /** The lock is held, and then a receive fails. */
  const HELD_LOST: seq<Event> := [Recv(Ok(Acquired("t", None))), Settle, Recv(Err(7))]

  lemma RunThree(s: Session, events: seq<Event>)
    requires |events| == 3
    ensures Run(s, events) == Step(Step(Step(s, events[0]), events[1]), events[2])
  {
    hide Step;
    assert events == [events[0]] + [events[1]] + [events[2]];
    RunSplits(s, [events[0]] + [events[1]], [events[2]]);
    RunSplits(s, [events[0]], [events[1]]);
    RunOne(s, events[0]);
    RunOne(Step(s, events[0]), events[1]);
    RunOne(Step(Step(s, events[0]), events[1]), events[2]);
  }

  /** Neither an abort nor the loss of the lock stops the heartbeat: one is written after each. */
  lemma HeartbeatGoesOn()
    ensures var s := Run(Begin(true, false), HELD_ABORTED + [Tick(None)]);
            s.aborted && s.calls == [Write(false), Write(true)]
    ensures var s := Run(Begin(true, false), HELD_LOST + [Tick(None)]);
            s.lost == [7] && s.calls == [Write(false), Write(true)]
  {
    hide Run;
    var s0 := Begin(true, false);
    RunThree(s0, HELD_ABORTED);
    RunThree(s0, HELD_LOST);
    RunSplits(s0, HELD_ABORTED, [Tick(None)]);
    RunSplits(s0, HELD_LOST, [Tick(None)]);
    RunOne(Run(s0, HELD_ABORTED), Tick(None));
    RunOne(Run(s0, HELD_LOST), Tick(None));
  }

  // What the lock tells its owner.

  function Heard(s: Session, events: seq<Event>): seq<Message>
  {
    if events == [] then []
    else
      var before, e := events[..|events| - 1], events[|events| - 1];
      if e.Recv? && e.result.Ok? && Run(s, before).receiving then Heard(s, before) + [e.result.value]
      else Heard(s, before)
  }

  /** ACQUIRED sets the expiry even to none; TTL_EXTENDED without one changes nothing. */
  function Expiry(ms: seq<Message>): Option<int>
  {
    if ms == [] then None
    else match ms[|ms| - 1]
      case Acquired(_, expiresAt) => expiresAt
      case TtlExtended(Some(t)) => Some(t)
      case _ => Expiry(ms[..|ms| - 1])
  }

  lemma ExpiryMore(ms: seq<Message>, m: Message)
    ensures Expiry(ms + [m]) == if m.Acquired? || Stamp(m).Some? then Stamp(m) else Expiry(ms)
  {
    assert (ms + [m])[..|ms|] == ms;
  }

  /** Token, expiry and whether the lock was acquired are what the messages say, and nothing else changes them. */
  lemma {:induction false} TellsLatest(hasSignal: bool, aborted: bool, events: seq<Event>)
    ensures var s0 := Begin(hasSignal, aborted);
            var s, ms := Run(s0, events), Heard(s0, events);
            s.token == LastToken(ms) && s.expiresAt == Expiry(ms) && (s.gotAcquired <==> AnyAcquired(ms))
  {
    assert LastToken([]) == "" && Expiry([]) == None && !AnyAcquired([]);
    hide LastToken, AnyAcquired, Expiry, Step;
    var s0 := Begin(hasSignal, aborted);
    if events != [] {
      var before, e := events[..|events| - 1], events[|events| - 1];
      TellsLatest(hasSignal, aborted, before);
      HeardStep(Run(s0, before), e, Heard(s0, before));
    }
  }

  predicate Matches(s: Session, ms: seq<Message>)
  {
    s.token == LastToken(ms) && s.expiresAt == Expiry(ms) && (s.gotAcquired <==> AnyAcquired(ms))
  }

  lemma HeardStep(s: Session, e: Event, ms: seq<Message>)
    requires Matches(s, ms)
    ensures Matches(Step(s, e), if e.Recv? && e.result.Ok? && s.receiving then ms + [e.result.value] else ms)
  {
    hide LastToken, AnyAcquired, Expiry, Hearing, Failing, Ticking, Settling, Closing;
    if e.Recv? && e.result.Ok? {
      HearingMatches(s, e.result.value, ms);
    }
  }

  lemma HearingMatches(s: Session, m: Message, ms: seq<Message>)
    requires Matches(s, ms)
    ensures Matches(Hearing(s, m), ms + [m])
  {
    hide LastToken, AnyAcquired, Expiry;
    OneMore(ms, m);
    ExpiryMore(ms, m);
  }
}
