/**
  taskTicker (main.go:105-123) as a trace of channel operations: the
  initial burst, one full pass over the task list per tick, and closing the
  channel on cancellation. Tick and cancellation arrive as input events.
 */
module Ticker {
  import opened Model

  datatype TickerEvent = Tick | Cancel

  /**
    Sending the task at an index of the task list, closing the channel, or
    the panic of time.NewTicker on a non-positive interval, which ends the
    process without closing the channel.
   */
  datatype ChannelOp = Send(task: nat) | Close | Panic

  /** One pass over a task list of length n, in list order. */
  function Burst(n: nat): (ops: seq<ChannelOp>)
    ensures |ops| == n
  {
    seq(n, k requires 0 <= k => Send(k))
  }

  /** r consecutive passes. */
  function Rounds(n: nat, r: nat): seq<ChannelOp> {
    if r == 0 then [] else Rounds(n, r - 1) + Burst(n)
  }

  /** Number of ticks before the first cancellation (all ticks if there is none). */
  function TicksBeforeCancel(events: seq<TickerEvent>): (ticks: nat)
    ensures ticks <= |events|
    ensures forall k :: 0 <= k < ticks ==> events[k] == Tick
    ensures ticks < |events| ==> events[ticks] == Cancel
  {
    if events == [] || events[0] == Cancel then 0
    else
      var rest := TicksBeforeCancel(events[1..]);
      assert events[0] == Tick;
      assert forall k :: 1 <= k <= rest ==> events[k] == events[1..][k - 1];
      1 + rest
  }

  /**
    Full passes over the task list the distributor makes: the initial burst,
    then one per tick before cancellation. A non-positive interval makes
    time.NewTicker panic right after the burst, so no tick is ever handled.
   */
  function Passes(interval: int, events: seq<TickerEvent>): nat {
    if interval <= 0 then 1 else TicksBeforeCancel(events) + 1
  }

  /** What follows the passes: the panic, the close on cancellation, or nothing while ticks keep coming. */
  function Ending(interval: int, events: seq<TickerEvent>): seq<ChannelOp> {
    if interval <= 0 then [Panic] else if Cancel in events then [Close] else []
  }

  /**
    The distributor, reading the tick interval from the configuration: after
    the burst, either the ticker cannot be created (the process panics and
    the channel is never closed), or every tick re-sends the whole list and
    the first cancellation closes the channel; nothing happens afterwards.
   */
  method TaskTicker(cfg: Config, n: nat, events: seq<TickerEvent>) returns (trace: seq<ChannelOp>)
    ensures cfg.intervalBetweenChecks <= 0 ==> trace == Burst(n) + [Panic]
    ensures cfg.intervalBetweenChecks > 0 ==>
      trace == Rounds(n, TicksBeforeCancel(events) + 1) + (if Cancel in events then [Close] else [])
  {
    trace := SendAll(n, []);
    assert trace == Rounds(n, 1);
    if cfg.intervalBetweenChecks <= 0 {
      return trace + [Panic];
    }
    var e := 0;
    while e < |events|
      invariant 0 <= e <= |events|
      invariant forall k :: 0 <= k < e ==> events[k] == Tick
      invariant trace == Rounds(n, e + 1)
    {
      if events[e] == Cancel {
        assert Cancel in events;
        return trace + [Close];
      }
      trace := SendAll(n, trace);
      e := e + 1;
    }
    assert Cancel !in events;
  }

  /** Appends one pass over the task list to the trace (the `for _, task := range taskList` loops). */
  method SendAll(n: nat, before: seq<ChannelOp>) returns (trace: seq<ChannelOp>)
    ensures trace == before + Burst(n)
  {
    trace := before;
    var k := 0;
    while k < n
      invariant 0 <= k <= n
      invariant trace == before + Burst(n)[..k]
    {
      trace := trace + [Send(k)];
      k := k + 1;
    }
  }

  lemma {:induction false} RoundsAt(n: nat, r: nat, q: nat, j: nat)
    requires q < r && j < n
    ensures |Rounds(n, r)| == r * n
    ensures q * n + j < r * n && Rounds(n, r)[q * n + j] == Send(j)
  {
    RoundsLength(n, r);
    var prev := Rounds(n, r - 1);
    RoundsLength(n, r - 1);
    if q < r - 1 {
      RoundsAt(n, r - 1, q, j);
    } else {
      assert q * n + j == |prev| + j;
    }
  }

  lemma {:induction false} RoundsLength(n: nat, r: nat)
    ensures |Rounds(n, r)| == r * n
  {
    if r > 0 {
      RoundsLength(n, r - 1);
    }
  }

  lemma {:induction false} RoundsOnlySend(n: nat, r: nat)
    ensures forall k :: 0 <= k < |Rounds(n, r)| ==> Rounds(n, r)[k].Send?
  {
    if r > 0 {
      RoundsOnlySend(n, r - 1);
    }
  }

  /**
    The shape of the distributor's trace: the full passes, then at most one
    other operation, which is the last. The channel is closed exactly when
    the interval is positive and a cancellation arrived; the trace ends in a
    panic exactly when the interval is not positive.
   */
  lemma TickerTrace(cfg: Config, n: nat, events: seq<TickerEvent>, trace: seq<ChannelOp>)
    requires cfg.intervalBetweenChecks <= 0 ==> trace == Burst(n) + [Panic]
    requires cfg.intervalBetweenChecks > 0 ==>
      trace == Rounds(n, TicksBeforeCancel(events) + 1) + (if Cancel in events then [Close] else [])
    ensures trace == Rounds(n, Passes(cfg.intervalBetweenChecks, events)) + Ending(cfg.intervalBetweenChecks, events)
    ensures |trace| == Passes(cfg.intervalBetweenChecks, events) * n + |Ending(cfg.intervalBetweenChecks, events)|
    ensures Close in trace <==> cfg.intervalBetweenChecks > 0 && Cancel in events
    ensures Panic in trace <==> cfg.intervalBetweenChecks <= 0
    ensures forall k :: 0 <= k < |trace| && !trace[k].Send? ==> k == |trace| - 1
  {
    var interval := cfg.intervalBetweenChecks;
    var p := Passes(interval, events);
    assert Rounds(n, 1) == Burst(n);
    assert trace == Rounds(n, p) + Ending(interval, events);
    RoundsLength(n, p);
    RoundsOnlySend(n, p);
  }

  /** Every pass sends the whole task list in order: operation q * n + j of the trace sends task j. */
  lemma TickerPassOrder(interval: int, n: nat, events: seq<TickerEvent>, trace: seq<ChannelOp>, q: nat, j: nat)
    requires trace == Rounds(n, Passes(interval, events)) + Ending(interval, events)
    requires q < Passes(interval, events) && j < n
    ensures q * n + j < |trace| && trace[q * n + j] == Send(j)
  {
    RoundsAt(n, Passes(interval, events), q, j);
  }
}
