/**
 go/restart.go, watchLoop: the reconnect loop as a goroutine beside cancellation and a consumer of the
 changes channel. Looking at the context and opening a stream are two steps here, unlike in TypeScript.
 The log and the row of sleeps are those of WatchLoop.
 */
module GoWatch {
  import opened Wrappers
  import opened WatchLoop

  /** Before the look at the context, past it, in open, in Recv, after a broken stream, asleep, returned. */
  datatype Stage = Head | Past | Dialling | Reading | Broken | Asleep | Returned

  /** The channel has room for one; taken counts what the consumer received from it. */
  datatype State = State(stage: Stage, backoff: real, cancelled: bool, log: seq<Effect>,
                         pending: bool, closed: bool, taken: nat, sent: nat)

  datatype Action =
    | Cancel
    | Look
    | OpenCalled
    | OpenReturns(ok: bool)
    | RecvReturns(changed: Option<bool>)
    | SleepEnds(completed: bool)
    | ConsumerTakes

  /** watchBackoffMin and watchBackoffMax, in seconds. */
  const GO := Config(1.0, 30.0)

  const START := State(Head, GO.min, false, [], false, false, 0, 0)

  /** The deferred close. */
  function Return(s: State): State
  {
    s.(stage := Returned, closed := true)
  }

  function FallAsleep(s: State): State
  {
    s.(stage := Asleep, log := s.log + [Sleep(s.backoff)])
  }

  /** The select that gives up when a change is pending already. */
  function Offer(s: State): State
  {
    if s.pending then s else s.(pending := true, sent := s.sent + 1)
  }

  function Read(s: State, changed: bool): State
  {
    var s' := s.(backoff := GO.min, log := s.log + [Receive]);
    if changed then Offer(s') else s'
  }

  function Apply(s: State, a: Action): Option<State>
  {
    match a
    case Cancel => Some(s.(cancelled := true))
    case Look =>
      if s.stage.Head? then Some(if s.cancelled then Return(s) else s.(stage := Past))
      else if s.stage.Broken? then Some(if s.cancelled then Return(s) else FallAsleep(s))
      else None
    case OpenCalled => if s.stage.Past? then Some(s.(stage := Dialling, log := s.log + [Open])) else None
    case OpenReturns(ok) =>
      if s.stage.Dialling? then Some(if ok then s.(stage := Reading) else FallAsleep(s)) else None
    case RecvReturns(result) =>
      if !s.stage.Reading? then None
      else if result.None? then Some(s.(stage := Broken))
      else Some(Read(s, result.value))
    case SleepEnds(completed) =>
      if !s.stage.Asleep? || (!completed && !s.cancelled) then None
      else if completed then Some(s.(stage := Head, backoff := NextBackoff(s.backoff, GO.max)))
      else Some(Return(s))
    case ConsumerTakes => if s.pending then Some(s.(pending := false, taken := s.taken + 1)) else None
  }

  function More(s: State, acts: seq<Action>): Option<State>
    decreases acts
  {
    if acts == [] then Some(s)
    else match Apply(s, acts[0])
      case None => None
      case Some(s') => More(s', acts[1..])
  }

  predicate Inv(s: State)
  {
    && s.sent == s.taken + (if s.pending then 1 else 0)
    && (s.closed <==> s.stage.Returned?)
    && (s.closed ==> s.cancelled)
    && SleepsRight(GO, s.log)
    && (s.stage.Head? || s.stage.Past? || s.stage.Dialling? || s.stage.Reading? || s.stage.Broken? ==>
          s.backoff == SleepLength(GO, SleepsSince(s.log)))
    && (s.stage.Asleep? ==> SleepsSince(s.log) > 0 && s.backoff == SleepLength(GO, SleepsSince(s.log) - 1))
  }

  /** What one effect more means for the row of sleeps. */
  lemma RowMore(log: seq<Effect>, e: Effect)
    requires SleepsRight(GO, log) && (e.Sleep? ==> e.ms == SleepLength(GO, SleepsSince(log)))
    ensures SleepsRight(GO, log + [e])
    ensures SleepsSince(log + [e]) == if e.Receive? then 0 else SleepsSince(log) + if e.Sleep? then 1 else 0
  {
    OneMoreEffect(GO, log, e);
  }

  lemma SleepKeeps(s: State)
    requires Inv(s) && (s.stage.Dialling? || s.stage.Broken?)
    ensures Inv(FallAsleep(s))
  {
    hide SleepsRight, SleepsSince, SleepLength;
    RowMore(s.log, Sleep(s.backoff));
  }

  lemma ReadKeeps(s: State, changed: bool)
    requires Inv(s) && s.stage.Reading?
    ensures Inv(Read(s, changed))
  {
    hide SleepsRight, SleepsSince;
    RowMore(s.log, Receive);
  }

  lemma OpenKeeps(s: State)
    requires Inv(s) && s.stage.Past?
    ensures Inv(Apply(s, OpenCalled).value)
  {
    hide SleepsRight, SleepsSince, SleepLength;
    RowMore(s.log, Open);
  }

  lemma StepKeeps(s: State, a: Action)
    requires Inv(s) && Apply(s, a).Some?
    ensures Inv(Apply(s, a).value)
  {
    hide SleepsRight, SleepsSince, NextBackoff, FallAsleep, Read;
    if a.OpenCalled? {
      OpenKeeps(s);
    } else if a.RecvReturns? && a.changed.Some? {
      ReadKeeps(s, a.changed.value);
    } else if (a.Look? && s.stage.Broken?) || a.OpenReturns? {
      SleepKeeps(s);
    }
  }

  lemma {:induction false} MoreKeeps(s: State, acts: seq<Action>)
    requires Inv(s) && More(s, acts).Some?
    ensures Inv(More(s, acts).value)
    decreases acts
  {
    hide Inv, Apply;
    if acts != [] {
      StepKeeps(s, acts[0]);
      MoreKeeps(Apply(s, acts[0]).value, acts[1..]);
    }
  }

  /**
   On every run: the channel is closed exactly when the loop has returned, which takes a cancellation;
   what was sent was taken or is the pending one; the n-th sleep in a row, from 0, lasts min(2^n, 30) seconds.
   */
  lemma EveryRun(acts: seq<Action>, i: nat)
    requires More(START, acts).Some?
    ensures var s := More(START, acts).value;
            && (s.closed <==> s.stage.Returned?) && (s.closed ==> s.cancelled)
            && s.sent == s.taken + (if s.pending then 1 else 0)
            && (i < |s.log| && s.log[i].Sleep? ==> s.log[i].ms == Min(Doubled(1.0, SleepsSince(s.log[..i])), 30.0))
  {
    hide More, Doubled;
    assert Inv(START);
    MoreKeeps(START, acts);
    var log := More(START, acts).value.log;
    if i < |log| {
      CappedDoubling(GO, SleepsSince(log[..i]));
    }
  }

  // Streams opened after the cancellation.

  lemma LateStep(s: State, a: Action)
    requires s.cancelled && Apply(s, a).Some?
    ensures var s' := Apply(s, a).value;
            && s'.cancelled
            && Opens(s'.log) + (if s'.stage.Past? then 1 else 0) <= Opens(s.log) + (if s.stage.Past? then 1 else 0)
            && Opens(s'.log) >= Opens(s.log)
  {
    hide Opens, NextBackoff;
    OneMoreEffect(GO, s.log, Open);
    OneMoreEffect(GO, s.log, Receive);
    OneMoreEffect(GO, s.log, Sleep(s.backoff));
  }

  lemma {:induction false} LateOpens(s: State, acts: seq<Action>)
    requires s.cancelled && More(s, acts).Some?
    ensures Opens(s.log) <= Opens(More(s, acts).value.log) <= Opens(s.log) + if s.stage.Past? then 1 else 0
    decreases acts
  {
    hide Apply, Opens;
    if acts != [] {
      LateStep(s, acts[0]);
      LateOpens(Apply(s, acts[0]).value, acts[1..]);
    }
  }

  /** After a cancellation one more stream can be opened if and only if the loop had looked just before. */
  lemma OpenAfterCancel(s: State)
    requires s.cancelled
    ensures (exists acts :: More(s, acts).Some? && Opens(More(s, acts).value.log) > Opens(s.log)) <==> s.stage.Past?
  {
    hide Opens, More;
    if s.stage.Past? {
      OneMoreEffect(GO, s.log, Open);
      JustOne(s, OpenCalled);
    } else {
      forall acts | More(s, acts).Some? ensures Opens(More(s, acts).value.log) <= Opens(s.log) {
        LateOpens(s, acts);
      }
    }
  }

  lemma JustOne(s: State, a: Action)
    requires Apply(s, a).Some?
    ensures More(s, [a]) == Apply(s, a)
  {
    var s' := Apply(s, a).value;
    assert More(s', []) == Some(s');
  }

  // A change stays in the channel until it is taken, also after the channel was closed.

  lemma {:induction false} ChangeWaits(s: State, acts: seq<Action>)
    requires s.pending && More(s, acts).Some?
    ensures More(s, acts).value.taken > s.taken || More(s, acts).value.pending
    ensures More(s, acts).value.taken >= s.taken
    decreases acts
  {
    hide Apply;
    if acts != [] {
      PendingStep(s, acts[0]);
      var s' := Apply(s, acts[0]).value;
      if s'.pending {
        ChangeWaits(s', acts[1..]);
      } else {
        TakenGrows(s', acts[1..]);
      }
    }
  }

  lemma PendingStep(s: State, a: Action)
    requires Apply(s, a).Some?
    ensures var s' := Apply(s, a).value; s'.taken >= s.taken && (s.pending ==> s'.pending || s'.taken > s.taken)
  {
    hide NextBackoff;
  }

  lemma {:induction false} TakenGrows(s: State, acts: seq<Action>)
    requires More(s, acts).Some?
    ensures More(s, acts).value.taken >= s.taken
    decreases acts
  {
    hide Apply;
    if acts != [] {
      PendingStep(s, acts[0]);
      TakenGrows(Apply(s, acts[0]).value, acts[1..]);
    }
  }

  /** After a CHANGED message the consumer has something to take, until it has taken it. */
  lemma ChangeIsTaken(s: State, more: seq<Action>)
    requires s.stage.Reading? && More(s, [RecvReturns(Some(true))] + more).Some?
    ensures var s' := More(s, [RecvReturns(Some(true))] + more).value; s'.taken > s.taken || s'.pending
  {
    var r := Apply(s, RecvReturns(Some(true)));
    assert r.Some? && r.value.pending && r.value.taken == s.taken;
    hide Apply;
    var acts := [RecvReturns(Some(true))] + more;
    assert acts[1..] == more;
    ChangeWaits(Apply(s, acts[0]).value, more);
  }
}
