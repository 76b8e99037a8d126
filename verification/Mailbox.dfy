/**
 typescript/src/async-mailbox.ts: the queue between an event-driven producer and a consumer that
 awaits. A promise is known by its ticket, the number of calls of next made before it; a waiter is
 the ticket it would settle.
 */
module Mailbox {
  import opened Wrappers
  import opened Promises

  datatype Item<T> = Value(value: T) | Error(error: nat) | Done

  /** What a mailbox holds, and every promise it has settled. */
  datatype Box<T> = Box(buffered: seq<T>, waiters: seq<nat>, terminal: Option<Item<T>>,
                        calls: nat, settled: map<nat, Item<T>>)

  datatype Op<T> = PushValue(value: T) | PushTerminal(item: Item<T>) | Next

  function Step<T>(b: Box<T>, op: Op<T>): Box<T>
  {
    match op
    case PushValue(v) =>
      if b.terminal.Some? then b
      else if b.waiters != [] then b.(waiters := b.waiters[1..], settled := b.settled[b.waiters[0] := Value(v)])
      else b.(buffered := b.buffered + [v])
    case PushTerminal(item) =>
      if b.terminal.Some? then b
      else b.(terminal := Some(item), waiters := [], settled := Settle(b.settled, b.waiters, item))
    case Next =>
      var b' := b.(calls := b.calls + 1);
      if b.buffered != [] then b'.(buffered := b.buffered[1..], settled := b.settled[b.calls := Value(b.buffered[0])])
      else if b.terminal.Some? then b'.(settled := b.settled[b.calls := b.terminal.value])
      else b'.(waiters := b.waiters + [b.calls])
  }

  class AsyncMailbox<T> {
    var buffered: seq<T>
    var waiters: seq<nat>
    var terminal: Option<Item<T>>
    var calls: nat
    var settled: map<nat, Item<T>>

    function View(): Box<T>
      reads this
    {
      Box(buffered, waiters, terminal, calls, settled)
    }

    constructor ()
      ensures View() == EmptyBox()
    {
      buffered, waiters, terminal, calls, settled := [], [], None, 0, map[];
    }

    method PushValue(value: T)
      modifies this
      ensures View() == Step(old(View()), Op.PushValue(value))
    {
      if terminal.Some? { return; }
      if waiters != [] {
        settled := settled[waiters[0] := Value(value)];
        waiters := waiters[1..];
      } else {
        buffered := buffered + [value];
      }
    }

    method PushTerminal(item: Item<T>)
      modifies this
      ensures View() == Step(old(View()), Op.PushTerminal(item))
    {
      if terminal.Some? { return; }
      terminal := Some(item);
      while |waiters| > 0
        invariant Settle(settled, waiters, item) == Settle(old(settled), old(waiters), item)
        invariant terminal == Some(item) && buffered == old(buffered) && calls == old(calls)
      {
        settled := settled[waiters[0] := item];
        waiters := waiters[1..];
      }
    }

    method Next() returns (ticket: nat)
      modifies this
      ensures ticket == old(calls)
      ensures View() == Step(old(View()), Op.Next)
    {
      ticket := calls;
      calls := calls + 1;
      if |buffered| > 0 {
        settled := settled[ticket := Value(buffered[0])];
        buffered := buffered[1..];
      } else if terminal.Some? {
        settled := settled[ticket := terminal.value];
      } else {
        waiters := waiters + [ticket];
      }
    }
  }

  function EmptyBox<T>(): Box<T>
  {
    Box([], [], None, 0, map[])
  }

  function Run<T>(ops: seq<Op<T>>): Box<T>
  {
    if ops == [] then EmptyBox() else Step(Run(ops[..|ops| - 1]), ops[|ops| - 1])
  }

  // What a run amounts to: the values pushed before the first terminal, that terminal, the calls.

  function Values<T>(ops: seq<Op<T>>): seq<T>
  {
    if ops == [] then []
    else match ops[0]
      case PushValue(v) => [v] + Values(ops[1..])
      case PushTerminal(_) => []
      case Next => Values(ops[1..])
  }

  function Terminal<T>(ops: seq<Op<T>>): Option<Item<T>>
  {
    if ops == [] then None
    else if ops[0].PushTerminal? then Some(ops[0].item)
    else Terminal(ops[1..])
  }

  function Nexts<T>(ops: seq<Op<T>>): nat
  {
    if ops == [] then 0 else (if ops[0].Next? then 1 else 0) + Nexts(ops[1..])
  }

  /** What the k-th call of next is to receive: the k-th value, else the terminal, else nothing yet. */
  function Outcome<T>(values: seq<T>, terminal: Option<Item<T>>, k: nat): Option<Item<T>>
  {
    if k < |values| then Some(Value(values[k])) else terminal
  }

  /** The whole mailbox, as a function of those three alone. */
  function Ideal<T>(values: seq<T>, terminal: Option<Item<T>>, calls: nat): Box<T>
  {
    Box(if calls < |values| then values[calls..] else [],
        if terminal.None? then Tickets(|values|, calls) else [],
        terminal,
        calls,
        map k: nat | k < calls && Outcome(values, terminal, k).Some? :: Outcome(values, terminal, k).value)
  }

  lemma NextFollows<T>(values: seq<T>, terminal: Option<Item<T>>, calls: nat)
    ensures Step(Ideal(values, terminal, calls), Next) == Ideal(values, terminal, calls + 1)
  {
    var b, b' := Step(Ideal(values, terminal, calls), Next), Ideal(values, terminal, calls + 1);
    assert b.buffered == b'.buffered;
    assert b.waiters == b'.waiters;
    assert b.settled == b'.settled;
  }

  lemma ValueFollows<T>(values: seq<T>, calls: nat, v: T)
    ensures Step(Ideal(values, None, calls), PushValue(v)) == Ideal(values + [v], None, calls)
  {
    var b, b' := Step(Ideal(values, None, calls), PushValue(v)), Ideal(values + [v], None, calls);
    assert b.buffered == b'.buffered;
    assert b.waiters == b'.waiters;
    assert b.settled == b'.settled;
  }

  lemma TerminalFollows<T>(values: seq<T>, calls: nat, item: Item<T>)
    ensures Step(Ideal(values, None, calls), PushTerminal(item)) == Ideal(values, Some(item), calls)
  {
    hide Settle;
    var before := Ideal(values, None, calls).settled;
    var b, b' := Step(Ideal(values, None, calls), PushTerminal(item)), Ideal(values, Some(item), calls);
    forall k: nat ensures (k in b.settled <==> k in b'.settled) && (k in b.settled ==> b.settled[k] == b'.settled[k]) {
      SettleAt(before, |values|, calls, item, k);
    }
    assert b.settled == b'.settled;
  }

  // One more operation at the end.

  lemma {:induction false} SnocView<T>(ops: seq<Op<T>>, op: Op<T>)
    ensures Values(ops + [op]) == if op.PushValue? && Terminal(ops).None? then Values(ops) + [op.value] else Values(ops)
    ensures Terminal(ops + [op]) == if Terminal(ops).Some? then Terminal(ops)
                                    else if op.PushTerminal? then Some(op.item) else None
    ensures Nexts(ops + [op]) == Nexts(ops) + if op.Next? then 1 else 0
  {
    if ops == [] {
      assert ops + [op] == [op];
    } else {
      assert (ops + [op])[1..] == ops[1..] + [op];
      SnocView(ops[1..], op);
    }
  }

  /** Every run, in whatever order pushes and calls come, leaves the ideal mailbox. */
  lemma {:induction false} RunIsIdeal<T>(ops: seq<Op<T>>)
    ensures Run(ops) == Ideal(Values(ops), Terminal(ops), Nexts(ops))
  {
    hide Step, Ideal, Values, Terminal, Nexts;
    if ops == [] {
      EmptyIsIdeal<T>();
    } else {
      var n := |ops| - 1;
      var before, op := ops[..n], ops[n];
      assert ops == before + [op];
      RunIsIdeal(before);
      SnocView(before, op);
      OpFollows(Values(before), Terminal(before), Nexts(before), op);
    }
  }

  lemma EmptyIsIdeal<T>()
    ensures Values<T>([]) == [] && Terminal<T>([]) == None && Nexts<T>([]) == 0
    ensures EmptyBox<T>() == Ideal<T>([], None, 0)
  {
    assert Ideal<T>([], None, 0).settled == map[];
  }

  lemma OpFollows<T>(values: seq<T>, terminal: Option<Item<T>>, calls: nat, op: Op<T>)
    ensures Step(Ideal(values, terminal, calls), op)
            == Ideal(if op.PushValue? && terminal.None? then values + [op.value] else values,
                     if terminal.Some? then terminal else if op.PushTerminal? then Some(op.item) else None,
                     calls + if op.Next? then 1 else 0)
  {
    match op
    case PushValue(v) => if terminal.None? { ValueFollows(values, calls, v); }
    case PushTerminal(item) => if terminal.None? { TerminalFollows(values, calls, item); }
    case Next => NextFollows(values, terminal, calls);
  }

  /**
   The k-th call of next has been settled exactly when the k-th value or a terminal is there, and with
   that; nothing is both buffered and waited for, and no one waits after a terminal.
   */
  lemma Determinacy<T>(ops: seq<Op<T>>, k: nat)
    ensures var b := Run(ops);
            && b.calls == Nexts(ops)
            && (k in b.settled <==> k < Nexts(ops) && Outcome(Values(ops), Terminal(ops), k).Some?)
            && (k in b.settled ==> Some(b.settled[k]) == Outcome(Values(ops), Terminal(ops), k))
            && (k in b.waiters <==> k < Nexts(ops) && Outcome(Values(ops), Terminal(ops), k).None?)
            && (b.buffered == [] || b.waiters == [])
            && (b.terminal.Some? ==> b.waiters == [])
  {
    hide Run, Values, Terminal, Nexts;
    RunIsIdeal(ops);
    var waiters := Tickets(|Values(ops)|, Nexts(ops));
    if |Values(ops)| <= k < Nexts(ops) {
      assert waiters[k - |Values(ops)|] == k;
    }
  }

  function Pushes<T>(ops: seq<Op<T>>): seq<Op<T>>
  {
    if ops == [] then [] else (if ops[0].Next? then [] else [ops[0]]) + Pushes(ops[1..])
  }

  lemma {:induction false} PushesDecide<T>(ops: seq<Op<T>>)
    ensures Values(Pushes(ops)) == Values(ops) && Terminal(Pushes(ops)) == Terminal(ops)
  {
    if ops != [] {
      PushesDecide(ops[1..]);
      if ops[0].Next? {
        assert Pushes(ops) == Pushes(ops[1..]);
      } else {
        assert Pushes(ops) == [ops[0]] + Pushes(ops[1..]);
      }
    }
  }

  /** Two schedules of the same pushes and as many calls leave the same mailbox and settle alike. */
  lemma ScheduleDoesNotMatter<T>(ops: seq<Op<T>>, other: seq<Op<T>>)
    requires Pushes(ops) == Pushes(other) && Nexts(ops) == Nexts(other)
    ensures Run(ops) == Run(other)
  {
    hide Run, Values, Terminal, Nexts, Pushes;
    RunIsIdeal(ops);
    RunIsIdeal(other);
    PushesDecide(ops);
    PushesDecide(other);
  }

  /** What has been settled stays as it is. */
  lemma SettledStays<T>(ops: seq<Op<T>>, op: Op<T>, k: nat)
    requires k in Run(ops).settled
    ensures k in Run(ops + [op]).settled && Run(ops + [op]).settled[k] == Run(ops).settled[k]
  {
    hide Run, Values, Terminal, Nexts;
    Determinacy(ops, k);
    Determinacy(ops + [op], k);
    SnocView(ops, op);
  }
}
