/**
 * The shared transfer state (`transfer_info_t`) and the loops that update
 * it in place: the control listener and the send and receive loops. Each
 * loop runs over a finite sequence of events; running out of events stands
 * for the loop being cancelled.
 */
module Session {
  import opened RateLimiter
  import opened Transfer
  import Control

  /** Which reset guard the send loop uses: the UDP copy resets on any non-negative elapsed time. */
  function SendGuard(isUdp: bool): (g: ResetGuard)
    ensures forall elapsed: int :: Resets(g, elapsed) <==> elapsed >= (if isUdp then 0 else MicrosPerSecond)
  {
    if isUdp then NonNegativeElapsed else WindowElapsed
  }

  /** Both receive loops reset after a full second. */
  function ReceiveGuard(isUdp: bool): (g: ResetGuard)
    ensures forall elapsed: int :: Resets(g, elapsed) <==> elapsed >= MicrosPerSecond
  {
    WindowElapsed
  }

  /** The payloads every event's listener handles fit the receive buffer with room for the terminator. */
  predicate UpdatesReceivable(events: seq<Event>) {
    forall i, j :: 0 <= i < |events| && 0 <= j < |events[i].updates| ==> Control.Receivable(events[i].updates[j])
  }

  class TransferInfo {
    var totalBytesSent: int
    var totalBytesReceived: int
    /** The clock reading at session creation, for the final report. */
    const startTime: nat
    const isUdp: bool
    var bandwidthLimitMbps: real

    /** The byte counters never go negative and the limit stays positive. */
    ghost predicate Valid()
      reads this
    {
      totalBytesSent >= 0 && totalBytesReceived >= 0 && bandwidthLimitMbps > 0.0
    }

    constructor (isUdp: bool, now: nat)
      ensures Valid()
      ensures totalBytesSent == 0 && totalBytesReceived == 0
      ensures bandwidthLimitMbps == Control.InitialLimitMbps
      ensures this.isUdp == isUdp && startTime == now
    {
      totalBytesSent := 0;
      totalBytesReceived := 0;
      startTime := now;
      this.isUdp := isUdp;
      bandwidthLimitMbps := Control.InitialLimitMbps;
    }

    /** The listener loop over the payloads its `recv` calls returned, in order. */
    method ListenForBandwidthLimit(received: seq<seq<char>>)
      requires Valid()
      requires forall i :: 0 <= i < |received| ==> Control.Receivable(received[i])
      modifies this`bandwidthLimitMbps
      ensures Valid()
      ensures bandwidthLimitMbps == Control.ApplyUpdates(old(bandwidthLimitMbps), received)
    {
      var i := 0;
      while i < |received|
        invariant 0 <= i <= |received| && Valid()
        invariant Control.ApplyUpdates(old(bandwidthLimitMbps), received)
               == Control.ApplyUpdates(bandwidthLimitMbps, received[i..])
      {
        var buffer := received[i];
        if |buffer| > 0 {
          if Control.IsRateUpdate(buffer) {
            var newLimit := Control.RequestedLimit(buffer);
            if newLimit > 0.0 {
              bandwidthLimitMbps := newLimit;
            }
          }
        }
        assert received[i..][1..] == received[i + 1..];
        i := i + 1;
      }
    }

    /** The upload loop; start is the clock reading the loop takes before its first send. */
    method SendData(start: nat, events: seq<Event>) returns (pauses: seq<nat>)
      requires Valid() && UpdatesReceivable(events)
      modifies this`totalBytesSent, this`bandwidthLimitMbps
      ensures Valid()
      ensures var r := Run(SendGuard(isUdp), LoopState(old(totalBytesSent), Window(0, start), old(bandwidthLimitMbps), []), events);
        totalBytesSent == r.total && bandwidthLimitMbps == r.limit && pauses == r.pauses
    {
      ghost var guard := SendGuard(isUdp);
      ghost var initial := LoopState(totalBytesSent, Window(0, start), bandwidthLimitMbps, []);
      var bytesSentInSecond := 0;
      var windowStart := start;
      pauses := [];
      var i := 0;
      while i < |events|
        invariant 0 <= i <= |events| && Valid() && bytesSentInSecond >= 0
        invariant Run(guard, initial, events)
               == Run(guard, LoopState(totalBytesSent, Window(bytesSentInSecond, windowStart), bandwidthLimitMbps, pauses), events[i..])
      {
        var e := events[i];
        ghost var before := LoopState(totalBytesSent, Window(bytesSentInSecond, windowStart), bandwidthLimitMbps, pauses);
        if e.n <= 0 {
          assert Run(guard, before, events[i..]) == before;
          break;
        }
        ghost var next := StepState(guard, before, e);
        totalBytesSent := totalBytesSent + e.n;
        bytesSentInSecond := bytesSentInSecond + e.n;
        var elapsed := e.now - windowStart;
        ListenForBandwidthLimit(e.updates);
        var maxBytesPerSec := Allowance(bandwidthLimitMbps);
        ghost var r := Step(guard, before.window, e.n, e.now, e.restart, bandwidthLimitMbps);
        if elapsed < MicrosPerSecond && bytesSentInSecond as real >= maxBytesPerSec {
          assert r == StepResult(Window(0, e.restart), MicrosPerSecond - elapsed);
          pauses := pauses + [MicrosPerSecond - elapsed];
          windowStart := e.restart;
          bytesSentInSecond := 0;
        } else if (isUdp && elapsed >= 0) || (!isUdp && elapsed >= MicrosPerSecond) {
          assert r == StepResult(Window(0, e.restart), 0);
          pauses := pauses + [0];
          windowStart := e.restart;
          bytesSentInSecond := 0;
        } else {
          assert r == StepResult(Window(bytesSentInSecond, windowStart), 0);
          pauses := pauses + [0];
        }
        assert bandwidthLimitMbps == next.limit && r.window == next.window;
        assert Window(bytesSentInSecond, windowStart) == next.window && pauses == next.pauses;
        assert LoopState(totalBytesSent, Window(bytesSentInSecond, windowStart), bandwidthLimitMbps, pauses) == next;
        assert events[i..][1..] == events[i + 1..];
        assert Run(guard, before, events[i..]) == Run(guard, next, events[i + 1..]);
        i := i + 1;
      }
    }

    /** The download loop; start is the clock reading the loop takes before its first receive. */
    method ReceiveData(start: nat, events: seq<Event>) returns (pauses: seq<nat>)
      requires Valid() && UpdatesReceivable(events)
      modifies this`totalBytesReceived, this`bandwidthLimitMbps
      ensures Valid()
      ensures var r := Run(ReceiveGuard(isUdp), LoopState(old(totalBytesReceived), Window(0, start), old(bandwidthLimitMbps), []), events);
        totalBytesReceived == r.total && bandwidthLimitMbps == r.limit && pauses == r.pauses
    {
      ghost var guard := ReceiveGuard(isUdp);
      ghost var initial := LoopState(totalBytesReceived, Window(0, start), bandwidthLimitMbps, []);
      var bytesReceivedInSecond := 0;
      var windowStart := start;
      pauses := [];
      var i := 0;
      while i < |events|
        invariant 0 <= i <= |events| && Valid() && bytesReceivedInSecond >= 0
        invariant Run(guard, initial, events)
               == Run(guard, LoopState(totalBytesReceived, Window(bytesReceivedInSecond, windowStart), bandwidthLimitMbps, pauses), events[i..])
      {
        var e := events[i];
        ghost var before := LoopState(totalBytesReceived, Window(bytesReceivedInSecond, windowStart), bandwidthLimitMbps, pauses);
        if e.n <= 0 {
          assert Run(guard, before, events[i..]) == before;
          break;
        }
        ghost var next := StepState(guard, before, e);
        totalBytesReceived := totalBytesReceived + e.n;
        bytesReceivedInSecond := bytesReceivedInSecond + e.n;
        var elapsed := e.now - windowStart;
        ListenForBandwidthLimit(e.updates);
        var maxBytesPerSec := Allowance(bandwidthLimitMbps);
        ghost var r := Step(guard, before.window, e.n, e.now, e.restart, bandwidthLimitMbps);
        if elapsed < MicrosPerSecond && bytesReceivedInSecond as real >= maxBytesPerSec {
          assert r == StepResult(Window(0, e.restart), MicrosPerSecond - elapsed);
          pauses := pauses + [MicrosPerSecond - elapsed];
          windowStart := e.restart;
          bytesReceivedInSecond := 0;
        } else if elapsed >= MicrosPerSecond {
          assert r == StepResult(Window(0, e.restart), 0);
          pauses := pauses + [0];
          windowStart := e.restart;
          bytesReceivedInSecond := 0;
        } else {
          assert r == StepResult(Window(bytesReceivedInSecond, windowStart), 0);
          pauses := pauses + [0];
        }
        assert bandwidthLimitMbps == next.limit && r.window == next.window;
        assert Window(bytesReceivedInSecond, windowStart) == next.window && pauses == next.pauses;
        assert LoopState(totalBytesReceived, Window(bytesReceivedInSecond, windowStart), bandwidthLimitMbps, pauses) == next;
        assert events[i..][1..] == events[i + 1..];
        assert Run(guard, before, events[i..]) == Run(guard, next, events[i + 1..]);
        i := i + 1;
      }
    }
  }
}
