/**
 What the Go and the Python lock have in common: the messages of the lock stream and what the client
 remembers of them, and the calls of release (go/restart.go, python/src/signet_client/restart.py).
 */
module LockProtocol {
  import opened Wrappers

  /** An error value; only its identity matters here. */
  type Failure = nat

  datatype Message =
    | Acquired(token: string, expiresAt: Option<int>)
    | TtlExtended(expiresAt: Option<int>)
    | QueuePosition

  function LastToken(ms: seq<Message>): string
  {
    if ms == [] then ""
    else if ms[|ms| - 1].Acquired? then ms[|ms| - 1].token
    else LastToken(ms[..|ms| - 1])
  }

  function Stamp(m: Message): Option<int>
  {
    if m.QueuePosition? then None else m.expiresAt
  }

  /** The last expiry any message carried; a message without one leaves it as it was. */
  function LastStamp(ms: seq<Message>): Option<int>
  {
    if ms == [] then None
    else if Stamp(ms[|ms| - 1]).Some? then Stamp(ms[|ms| - 1])
    else LastStamp(ms[..|ms| - 1])
  }

  predicate AnyAcquired(ms: seq<Message>)
  {
    exists i :: 0 <= i < |ms| && ms[i].Acquired?
  }

  lemma OneMore(ms: seq<Message>, m: Message)
    ensures LastToken(ms + [m]) == if m.Acquired? then m.token else LastToken(ms)
    ensures LastStamp(ms + [m]) == if Stamp(m).Some? then Stamp(m) else LastStamp(ms)
    ensures AnyAcquired(ms + [m]) <==> m.Acquired? || AnyAcquired(ms)
  {
    var longer := ms + [m];
    assert longer[..|longer| - 1] == ms;
    assert longer[|ms|] == m;
    assert forall i :: 0 <= i < |ms| ==> longer[i] == ms[i];
  }

  // The receive loop and the heartbeat.

  /**
   Where one of them is. Offering holds what the receive loop owes to whoever acquires, Losing is the start
   of reporting a loss, Reporting is past its test of the released flag. The heartbeat alone is Parked, in a
   select that nothing had been ready for, or Due, between the end of its wait and the send.
   */
  datatype Place =
    | Idle
    | Waiting
    | Parked
    | Due
    | Offering(value: Option<Failure>)
    | Losing(failure: Failure)
    | Reporting(failure: Failure)
    | Leaving
    | Gone

  datatype Who = Receiver | Heart

  datatype Threads = Threads(receiver: Place, heart: Place)

  function PlaceOf(t: Threads, who: Who): Place
  {
    if who.Receiver? then t.receiver else t.heart
  }

  function MoveTo(t: Threads, who: Who, p: Place): Threads
  {
    if who.Receiver? then t.(receiver := p) else t.(heart := p)
  }

  /** After a report the receive loop still has to announce its end; the heartbeat is over. */
  function AfterReport(who: Who): Place
  {
    if who.Receiver? then Leaving else Gone
  }

  /** The heartbeat loop has begun and not ended. */
  predicate Beating(p: Place)
  {
    p.Waiting? || p.Parked? || p.Due?
  }

  /** How many steps of its own the receive loop is from its end, when a receive it waits for fails. */
  function StepsLeft(p: Place): nat
  {
    match p
    case Idle | Parked | Due | Gone => 0
    case Leaving => 1
    case Reporting(_) => 2
    case Losing(_) => 3
    case Waiting => 4
    case Offering(v) => if v.Some? then 2 else 5
  }

  // Any number of calls of release.

  /** Where one call is; Early is a call that found the lock released already and returned. */
  datatype Phase = Early | Marked | Stopped | Closed | Returned

  datatype ReleaseAction = Call(id: nat) | Stop(id: nat) | Close(id: nat) | Return(id: nat)

  datatype Releases = Releases(released: bool, stopped: bool, calls: map<nat, Phase>, closeSends: nat)

  const NO_RELEASES := Releases(false, false, map[], 0)

  function At(r: Releases, id: nat): Option<Phase>
  {
    if id in r.calls then Some(r.calls[id]) else None
  }

  /** Set the flag under the mutex; stop the heartbeat; close the stream; wait for the receive loop. */
  function ReleaseStep(r: Releases, a: ReleaseAction, recvDone: bool): Option<Releases>
  {
    match a
    case Call(id) =>
      if At(r, id).None? then
        Some(r.(released := true, calls := r.calls[id := if r.released then Early else Marked]))
      else None
    case Stop(id) =>
      if At(r, id) == Some(Marked) then Some(r.(stopped := true, calls := r.calls[id := Stopped])) else None
    case Close(id) =>
      if At(r, id) == Some(Stopped) then
        Some(r.(closeSends := r.closeSends + 1, calls := r.calls[id := Closed]))
      else None
    case Return(id) =>
      if At(r, id) == Some(Closed) && recvDone then Some(r.(calls := r.calls[id := Returned])) else None
  }

  predicate Acting(r: Releases, id: nat)
  {
    id in r.calls && !r.calls[id].Early?
  }

  /** The first call is the only one that acts; it stops the heartbeat, closes the stream once and waits. */
  ghost predicate FirstCallActs(r: Releases, recvDone: bool)
  {
    && (r.calls == map[] <==> !r.released)
    && (r.calls == map[] ==> r.closeSends == 0 && !r.stopped)
    && (r.released ==> exists i :: Acting(r, i))
    && (forall i, j :: Acting(r, i) && Acting(r, j) ==> i == j)
    && (forall i :: Acting(r, i) ==>
          && (r.closeSends == if r.calls[i].Closed? || r.calls[i].Returned? then 1 else 0)
          && (r.stopped <==> !r.calls[i].Marked?)
          && (r.calls[i].Returned? ==> recvDone))
  }

  lemma FirstCallStillActs(r: Releases, a: ReleaseAction, recvDone: bool)
    requires FirstCallActs(r, recvDone) && ReleaseStep(r, a, recvDone).Some?
    ensures var r' := ReleaseStep(r, a, recvDone).value;
            FirstCallActs(r', recvDone) && r'.released && (r.stopped ==> r'.stopped)
  {
    var r' := ReleaseStep(r, a, recvDone).value;
    assert a.id in r'.calls;
    if r.released {
      var i :| Acting(r, i);
      assert Acting(r', i);
      assert !a.Call? ==> Acting(r, a.id) && a.id == i;
      assert r'.calls[i] == r.calls[i] || a.id == i;
      forall j | Acting(r', j) ensures j == i {
        assert j == i || Acting(r, j);
      }
    } else {
      assert r'.calls == map[a.id := Marked];
      assert Acting(r', a.id);
    }
  }

  lemma DoneLater(r: Releases, before: bool, after: bool)
    requires FirstCallActs(r, before) && (before ==> after)
    ensures FirstCallActs(r, after)
  {}
}
