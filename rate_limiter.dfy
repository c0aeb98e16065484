/**
 * One step of a transfer loop's one-second rate window. Time is in whole
 * microseconds read from the caller's clock; the pause is returned instead
 * of being slept. Elapsed time is `now - start`, an integer that is
 * negative when the clock went back.
 */
module RateLimiter {

  const MicrosPerSecond: int := 1000000

  /**
   * The condition on which a loop restarts its window when it did not pause:
   * a full second has passed (TCP send, UDP receive, TCP receive), or any
   * non-negative time has passed (UDP send).
   */
  datatype ResetGuard = WindowElapsed | NonNegativeElapsed

  /** Bytes moved since the window started, and the clock reading it started at. */
  datatype Window = Window(bytes: int, start: nat)

  /** The window after one step, and how long the loop sleeps (0 for not at all). */
  datatype StepResult = StepResult(window: Window, pauseMicros: nat)

  /** Bytes a window may carry at a limit given in megabits per second. */
  function Allowance(limitMbps: real): (r: real)
    ensures (r > 0.0) == (limitMbps > 0.0)
    ensures r / 125000.0 == limitMbps
  {
    limitMbps * 1000000.0 / 8.0
  }

  /** The window is still open and already carries its allowance or more. */
  predicate Overflows(bytes: int, elapsed: int, limitMbps: real) {
    elapsed < MicrosPerSecond && bytes as real >= Allowance(limitMbps)
  }

  predicate Resets(guard: ResetGuard, elapsed: int) {
    match guard
    case WindowElapsed => elapsed >= MicrosPerSecond
    case NonNegativeElapsed => elapsed >= 0
  }

  /**
   * A transfer of n bytes has just succeeded; now is the clock after it,
   * restart the clock the loop reads when it starts a new window, and
   * limitMbps the current value of the shared limit.
   */
  function Step(guard: ResetGuard, w: Window, n: nat, now: nat, restart: nat, limitMbps: real): (r: StepResult)
    ensures var elapsed := now - w.start;
      (r.pauseMicros > 0 <==> elapsed < MicrosPerSecond && (w.bytes + n) as real >= Allowance(limitMbps))
    ensures var elapsed := now - w.start;
      r.pauseMicros > 0 ==> r.pauseMicros == MicrosPerSecond - elapsed && r.window == Window(0, restart)
    ensures now >= w.start ==> r.pauseMicros <= MicrosPerSecond
    ensures r.window == Window(0, restart) || r.window == Window(w.bytes + n, w.start)
  {
    var bytes := w.bytes + n;
    var elapsed := now - w.start;
    if Overflows(bytes, elapsed, limitMbps) then StepResult(Window(0, restart), MicrosPerSecond - elapsed)
    else if Resets(guard, elapsed) then StepResult(Window(0, restart), 0)
    else StepResult(Window(bytes, w.start), 0)
  }

  /** With the one-second guard, a finished window restarts without a pause, however much it carried. */
  lemma CompletedWindowResets(w: Window, n: nat, now: nat, restart: nat, limitMbps: real)
    requires now - w.start >= MicrosPerSecond
    ensures Step(WindowElapsed, w, n, now, restart, limitMbps) == StepResult(Window(0, restart), 0)
  {
  }

  /** With the one-second guard, an open window under its allowance keeps counting and keeps its start. */
  lemma OpenWindowAccumulates(w: Window, n: nat, now: nat, restart: nat, limitMbps: real)
    requires now - w.start < MicrosPerSecond
    requires ((w.bytes + n) as real) < Allowance(limitMbps)
    ensures Step(WindowElapsed, w, n, now, restart, limitMbps) == StepResult(Window(w.bytes + n, w.start), 0)
  {
  }

  /** With the UDP-send guard, every step on a clock that did not go back ends in a fresh, empty window. */
  lemma NonNegativeGuardAlwaysResets(w: Window, n: nat, now: nat, restart: nat, limitMbps: real)
    requires now >= w.start
    ensures Step(NonNegativeElapsed, w, n, now, restart, limitMbps).window == Window(0, restart)
  {
  }

  /** From an empty window, the UDP-send loop pauses exactly when the one datagram reaches the allowance. */
  lemma NonNegativeGuardPausesOnlyForOneDatagram(w: Window, n: nat, now: nat, restart: nat, limitMbps: real)
    requires w.bytes == 0 && w.start <= now < w.start + MicrosPerSecond
    ensures Step(NonNegativeElapsed, w, n, now, restart, limitMbps).pauseMicros > 0 <==> n as real >= Allowance(limitMbps)
  {
  }

  /** The two guards never disagree on a pause. */
  lemma GuardsAgreeOnPause(w: Window, n: nat, now: nat, restart: nat, limitMbps: real)
    ensures Step(WindowElapsed, w, n, now, restart, limitMbps).pauseMicros
         == Step(NonNegativeElapsed, w, n, now, restart, limitMbps).pauseMicros
  {
  }

  /**
   * The two guards give different windows exactly when the window is open,
   * under its allowance and the clock did not go back: the UDP-send loop
   * then throws the count away where the other loops keep it.
   */
  lemma GuardsDiffer(w: Window, n: nat, now: nat, restart: nat, limitMbps: real)
    requires n > 0 && w.bytes >= 0
    ensures Step(WindowElapsed, w, n, now, restart, limitMbps) != Step(NonNegativeElapsed, w, n, now, restart, limitMbps)
        <==> 0 <= now - w.start < MicrosPerSecond && ((w.bytes + n) as real) < Allowance(limitMbps)
  {
  }

  /** At 8 Mbps the allowance is 1,000,000 bytes; 2,000,000 bytes at once pause for the full second. */
  lemma EightMbpsBurst()
    ensures Allowance(8.0) == 1000000.0
    ensures Step(WindowElapsed, Window(0, 0), 2000000, 0, 1000000, 8.0) == StepResult(Window(0, 1000000), 1000000)
  {
  }

  /** The comparison is "at or above": a window carrying exactly its allowance pauses, one byte less does not. */
  lemma AllowanceBoundary()
    ensures Step(WindowElapsed, Window(0, 0), 1000000, 250000, 1000000, 8.0).pauseMicros == 750000
    ensures Step(WindowElapsed, Window(0, 0), 999999, 250000, 1000000, 8.0).pauseMicros == 0
  {
  }

  /** A limit lowered from 8 to 1 Mbps halfway through a window throttles the very next check. */
  lemma TightenedLimitTakesEffect()
    ensures Step(WindowElapsed, Window(100000, 0), 100000, 500000, 1000000, 8.0) == StepResult(Window(200000, 0), 0)
    ensures Step(WindowElapsed, Window(100000, 0), 100000, 500000, 1000000, 1.0) == StepResult(Window(0, 1000000), 500000)
  {
  }
}
