/**
 * What one transfer loop does over a whole run, as a function of what the
 * network, the clock and the control listener supply. The loop methods of
 * Session.TransferInfo are proved equal to Run; the lemmas here say what
 * Run guarantees.
 */
module Transfer {
  import opened RateLimiter
  import Control

  /**
   * One pass of a loop: n is what send/recv returned, now the clock read
   * after it, restart the clock read when the window restarts, and updates
   * the payloads the control listener handled before this pass reads the
   * limit.
   */
  datatype Event = Event(n: int, now: nat, restart: nat, updates: seq<seq<char>>)

  /** The loop's byte counter, its window, the shared limit, and one pause per counted transfer. */
  datatype LoopState = LoopState(total: int, window: Window, limit: real, pauses: seq<nat>)

  /** One counted transfer: the limit is read afresh, both counters grow by n, then the window is checked. */
  function StepState(guard: ResetGuard, s: LoopState, e: Event): (t: LoopState)
    requires e.n > 0
    ensures t.total == s.total + e.n && |t.pauses| == |s.pauses| + 1 && t.pauses[..|s.pauses|] == s.pauses
    ensures t.limit == Control.ApplyUpdates(s.limit, e.updates)
    ensures t.pauses[|s.pauses|] == Step(guard, s.window, e.n, e.now, e.restart, Control.ApplyUpdates(s.limit, e.updates)).pauseMicros
    ensures t.window == Step(guard, s.window, e.n, e.now, e.restart, Control.ApplyUpdates(s.limit, e.updates)).window
  {
    var limit := Control.ApplyUpdates(s.limit, e.updates);
    var r := Step(guard, s.window, e.n, e.now, e.restart, limit);
    LoopState(s.total + e.n, r.window, limit, s.pauses + [r.pauseMicros])
  }

  /**
   * The loop runs until a transfer returns zero or less, or the events run
   * out (the loop is cancelled). The counter ends at its start plus the sum
   * of the counted sizes, there is one pause per counted transfer, and
   * earlier pauses are kept.
   */
  function Run(guard: ResetGuard, s: LoopState, events: seq<Event>): (r: LoopState)
    ensures r.total == s.total + SumSizes(Completed(events))
    ensures |r.pauses| == |s.pauses| + |Completed(events)| && r.pauses[..|s.pauses|] == s.pauses
    decreases |events|
  {
    if events == [] || events[0].n <= 0 then s
    else Run(guard, StepState(guard, s, events[0]), events[1..])
  }

  /** The transfers a run counts: those before the first result of zero or less. */
  function Completed(events: seq<Event>): (c: seq<Event>)
    ensures |c| <= |events| && c == events[..|c|]
    ensures forall i :: 0 <= i < |c| ==> c[i].n > 0
    ensures |c| < |events| ==> events[|c|].n <= 0
  {
    if events == [] || events[0].n <= 0 then [] else [events[0]] + Completed(events[1..])
  }

  function SumSizes(events: seq<Event>): int {
    if events == [] then 0 else events[0].n + SumSizes(events[1..])
  }

  /** Clock readings in the order the loop takes them never go back. */
  predicate ClockOrdered(t: nat, events: seq<Event>) {
    && (events != [] ==> t <= events[0].now)
    && (forall i :: 0 <= i < |events| ==> events[i].now <= events[i].restart)
    && (forall i, j :: 0 <= i < j < |events| ==> events[i].restart <= events[j].now)
  }

  /** Every pause from index k on is at most one second. */
  predicate PausesAtMostOneSecond(pauses: seq<nat>, k: nat) {
    forall i :: k <= i < |pauses| ==> pauses[i] <= MicrosPerSecond
  }

  /** No pause from index k on. */
  predicate NoPauseFrom(pauses: seq<nat>, k: nat) {
    forall i :: k <= i < |pauses| ==> pauses[i] == 0
  }

  /** Some pause from index k on. */
  predicate SomePauseFrom(pauses: seq<nat>, k: nat) {
    exists i :: k <= i < |pauses| && pauses[i] > 0
  }

  lemma ClockOrderedTail(t: nat, events: seq<Event>)
    requires events != [] && ClockOrdered(t, events)
    ensures ClockOrdered(events[0].restart, events[1..])
  {
    var rest := events[1..];
    forall i, j | 0 <= i < j < |rest| ensures rest[i].restart <= rest[j].now {
      assert rest[i] == events[i + 1] && rest[j] == events[j + 1];
    }
  }

  /**
   * The limit is never cached: when the listener's last payload before a
   * counted transfer is a positive rate update, that transfer's window
   * check runs at the requested limit, whatever the loop read before.
   */
  lemma NextCheckUsesLatestUpdate(guard: ResetGuard, s: LoopState, e: Event, payload: seq<char>, rest: seq<Event>)
    requires e.n > 0 && Control.IsRateUpdate(payload) && Control.RequestedLimit(payload) > 0.0
    ensures var r := Run(guard, s, [Event(e.n, e.now, e.restart, e.updates + [payload])] + rest);
      && |r.pauses| > |s.pauses|
      && r.pauses[|s.pauses|] == Step(guard, s.window, e.n, e.now, e.restart, Control.RequestedLimit(payload)).pauseMicros
  {
    var events := [Event(e.n, e.now, e.restart, e.updates + [payload])] + rest;
    var t := StepState(guard, s, events[0]);
    Control.LatestUpdateWins(s.limit, e.updates, payload);
    assert events[1..] == rest;
    assert Run(guard, s, events).pauses[..|t.pauses|][|s.pauses|] == t.pauses[|s.pauses|];
  }

  /** A counted transfer has n > 0, so the counter never goes down. */
  lemma {:induction false} SumCompletedPositive(events: seq<Event>)
    ensures SumSizes(Completed(events)) >= |Completed(events)|
    decreases |events|
  {
    if events != [] && events[0].n > 0 {
      SumCompletedPositive(events[1..]);
      assert Completed(events)[1..] == Completed(events[1..]);
    }
  }

  lemma RunMonotone(guard: ResetGuard, s: LoopState, events: seq<Event>)
    ensures Run(guard, s, events).total >= s.total
    ensures Completed(events) != [] ==> Run(guard, s, events).total > s.total
  {
    SumCompletedPositive(events);
  }

  /** A positive limit stays positive through every update a run sees. */
  lemma {:induction false} RunKeepsLimitPositive(guard: ResetGuard, s: LoopState, events: seq<Event>)
    requires s.limit > 0.0
    ensures Run(guard, s, events).limit > 0.0
    decreases |events|
  {
    if events != [] && events[0].n > 0 {
      RunKeepsLimitPositive(guard, StepState(guard, s, events[0]), events[1..]);
    }
  }

  /** On a clock that does not go back, every pause is at most one second. */
  lemma {:induction false} RunPausesBounded(guard: ResetGuard, s: LoopState, t: nat, events: seq<Event>)
    requires s.window.start <= t && ClockOrdered(t, events)
    requires PausesAtMostOneSecond(s.pauses, 0)
    ensures PausesAtMostOneSecond(Run(guard, s, events).pauses, 0)
    decreases |events|
  {
    if events != [] && events[0].n > 0 {
      var e := events[0];
      var limit := Control.ApplyUpdates(s.limit, e.updates);
      var step := Step(guard, s.window, e.n, e.now, e.restart, limit);
      var s' := StepState(guard, s, e);
      assert s' == LoopState(s.total + e.n, step.window, limit, s.pauses + [step.pauseMicros]);
      assert step.pauseMicros <= MicrosPerSecond;
      assert PausesAtMostOneSecond(s'.pauses, 0);
      ClockOrderedTail(t, events);
      RunPausesBounded(guard, s', e.restart, events[1..]);
    }
  }

  /**
   * The UDP-send loop starts every pass with an empty window: on a clock
   * that does not go back, its window is empty after any run.
   */
  lemma {:induction false} NonNegativeGuardWindowStaysEmpty(s: LoopState, t: nat, events: seq<Event>)
    requires s.window.bytes == 0 && s.window.start <= t && ClockOrdered(t, events)
    ensures Run(NonNegativeElapsed, s, events).window.bytes == 0
    decreases |events|
  {
    if events != [] && events[0].n > 0 {
      var s' := StepState(NonNegativeElapsed, s, events[0]);
      ClockOrderedTail(t, events);
      NonNegativeGuardWindowStaysEmpty(s', events[0].restart, events[1..]);
    }
  }

  /**
   * With the UDP-send guard, datagrams each below the allowance never cause
   * a pause, however many of them land in one second.
   */
  lemma {:induction false} NonNegativeGuardNeverThrottles(s: LoopState, t: nat, events: seq<Event>)
    requires s.window.bytes == 0 && s.window.start <= t && ClockOrdered(t, events)
    requires forall i :: 0 <= i < |events| ==> events[i].updates == [] && 0 < events[i].n && (events[i].n as real) < Allowance(s.limit)
    ensures NoPauseFrom(Run(NonNegativeElapsed, s, events).pauses, |s.pauses|)
    decreases |events|
  {
    if events != [] {
      var s' := StepState(NonNegativeElapsed, s, events[0]);
      assert s'.limit == s.limit;
      assert s'.window.bytes == 0 && s'.pauses[|s.pauses|] == 0;
      ClockOrderedTail(t, events);
      NonNegativeGuardNeverThrottles(s', events[0].restart, events[1..]);
    }
  }

  /**
   * With the one-second guard, a window that is asked to carry its allowance
   * before the second is over always makes the loop pause.
   */
  lemma {:induction false} WindowElapsedThrottles(s: LoopState, events: seq<Event>)
    requires (s.window.bytes as real) < Allowance(s.limit)
    requires forall i :: 0 <= i < |events| ==>
      events[i].updates == [] && 0 < events[i].n && s.window.start <= events[i].now < s.window.start + MicrosPerSecond
    requires ((s.window.bytes + SumSizes(events)) as real) >= Allowance(s.limit)
    ensures SomePauseFrom(Run(WindowElapsed, s, events).pauses, |s.pauses|)
    decreases |events|
  {
    var e := events[0];
    var s' := StepState(WindowElapsed, s, e);
    assert s'.limit == s.limit;
    var r := Run(WindowElapsed, s, events);
    assert r == Run(WindowElapsed, s', events[1..]);
    if s'.pauses[|s.pauses|] > 0 {
      assert r.pauses[..|s'.pauses|] == s'.pauses;
      var i := |s.pauses|;
      assert r.pauses[i] == s'.pauses[i];
      assert |s.pauses| <= i < |r.pauses| && r.pauses[i] > 0;
    } else {
      assert s'.window == Window(s.window.bytes + e.n, s.window.start);
      WindowElapsedThrottles(s', events[1..]);
      var i :| |s'.pauses| <= i < |r.pauses| && r.pauses[i] > 0;
      assert |s.pauses| <= i < |r.pauses| && r.pauses[i] > 0;
    }
  }

  lemma {:induction false} SumSizesConstant(events: seq<Event>, size: int)
    requires forall i :: 0 <= i < |events| ==> events[i].n == size
    ensures SumSizes(events) == |events| * size
    decreases |events|
  {
    if events != [] {
      SumSizesConstant(events[1..], size);
    }
  }

  lemma {:induction false} CompletedAll(events: seq<Event>)
    requires forall i :: 0 <= i < |events| ==> events[i].n > 0
    ensures Completed(events) == events
    decreases |events|
  {
    if events != [] {
      CompletedAll(events[1..]);
    }
  }

  /** A burst: 700 full datagrams of 1470 bytes, one per microsecond of the clock. */
  predicate IsBurst(events: seq<Event>) {
    |events| == 700 && forall i :: 0 <= i < |events| ==> events[i] == Event(1470, i, i, [])
  }

  /**
   * The UDP-send loop as written, at a limit of 8 Mbps, moves a burst of
   * 1,029,000 bytes, more than the 1,000,000-byte allowance, within the
   * first millisecond of a window and never pauses.
   */
  lemma UdpSendBurstUnthrottled(events: seq<Event>)
    requires IsBurst(events)
    ensures Run(NonNegativeElapsed, LoopState(0, Window(0, 0), 8.0, []), events).total == 1029000
    ensures 1029000.0 > Allowance(8.0)
    ensures |Run(NonNegativeElapsed, LoopState(0, Window(0, 0), 8.0, []), events).pauses| == 700
    ensures NoPauseFrom(Run(NonNegativeElapsed, LoopState(0, Window(0, 0), 8.0, []), events).pauses, 0)
  {
    var s := LoopState(0, Window(0, 0), 8.0, []);
    assert Allowance(8.0) == 1000000.0;
    assert ClockOrdered(0, events);
    CompletedAll(events);
    SumSizesConstant(events, 1470);
    NonNegativeGuardNeverThrottles(s, 0, events);
  }

  /** The same burst under the one-second guard of the other three loops is throttled. */
  lemma WindowedSendBurstThrottled(events: seq<Event>)
    requires IsBurst(events)
    ensures SomePauseFrom(Run(WindowElapsed, LoopState(0, Window(0, 0), 8.0, []), events).pauses, 0)
  {
    var s := LoopState(0, Window(0, 0), 8.0, []);
    assert Allowance(8.0) == 1000000.0;
    SumSizesConstant(events, 1470);
    WindowElapsedThrottles(s, events);
  }
}
