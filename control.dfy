/**
 * The control channel: the listener that watches the session socket for
 * "BANDWIDTH_LIMIT:<Mbps>" messages and replaces the shared rate limit.
 * A received payload is the bytes one `recv` returned; the empty payload
 * stands for a result of zero or less (peer closed, or an error).
 */
module Control {
  import opened Decimal

  /** Size of every receive buffer in the client. */
  const BufferSize: nat := 1470

  const RateUpdatePrefix: seq<char> := "BANDWIDTH_LIMIT:"

  /** The limit a session starts with, in Mbps. */
  const InitialLimitMbps: real := 1000000.0

  /** A payload the listener can terminate with NUL inside its buffer. */
  predicate Receivable(payload: seq<char>) {
    |payload| < BufferSize
  }

  /** The first 16 bytes are the rate-update prefix. */
  predicate IsRateUpdate(payload: seq<char>) {
    |payload| >= |RateUpdatePrefix| && payload[..|RateUpdatePrefix|] == RateUpdatePrefix
  }

  /** The value written after the prefix, read as `atof` would. */
  function RequestedLimit(payload: seq<char>): real
    requires IsRateUpdate(payload)
  {
    ParseDecimal(payload[|RateUpdatePrefix|..])
  }

  /** The limit after the listener has handled one received payload. */
  function NewLimit(limit: real, payload: seq<char>): (r: real)
    ensures limit > 0.0 ==> r > 0.0
    ensures r == limit || (IsRateUpdate(payload) && RequestedLimit(payload) > 0.0 && r == RequestedLimit(payload))
  {
    if |payload| > 0 && IsRateUpdate(payload) && RequestedLimit(payload) > 0.0 then RequestedLimit(payload)
    else limit
  }

  /** The limit after the listener has handled the payloads in order. */
  function ApplyUpdates(limit: real, received: seq<seq<char>>): (r: real)
    ensures limit > 0.0 ==> r > 0.0
    decreases received
  {
    if received == [] then limit else ApplyUpdates(NewLimit(limit, received[0]), received[1..])
  }

  /** Handling one more payload is one more NewLimit step on the result so far. */
  lemma {:induction false} ApplyUpdatesSnoc(limit: real, received: seq<seq<char>>, payload: seq<char>)
    ensures ApplyUpdates(limit, received + [payload]) == NewLimit(ApplyUpdates(limit, received), payload)
    decreases received
  {
    if received == [] {
      assert [] + [payload] == [payload];
    } else {
      assert (received + [payload])[1..] == received[1..] + [payload];
      ApplyUpdatesSnoc(NewLimit(limit, received[0]), received[1..], payload);
    }
  }

  /** The limit in force after a batch of messages is the old one or a positive value some message asked for. */
  lemma {:induction false} ApplyUpdatesSource(limit: real, received: seq<seq<char>>)
    ensures var r := ApplyUpdates(limit, received);
      r == limit || exists i :: 0 <= i < |received| && IsRateUpdate(received[i]) && r == RequestedLimit(received[i]) > 0.0
    decreases received
  {
    if received != [] {
      var next := NewLimit(limit, received[0]);
      ApplyUpdatesSource(next, received[1..]);
      var r := ApplyUpdates(next, received[1..]);
      if r != next {
        var i :| 0 <= i < |received[1..]| && IsRateUpdate(received[1..][i]) && r == RequestedLimit(received[1..][i]) > 0.0;
        assert received[1..][i] == received[i + 1];
      } else if next != limit {
        assert IsRateUpdate(received[0]) && r == RequestedLimit(received[0]);
      }
    }
  }

  /** A well-formed update is what the next read of the limit sees, whatever came before it. */
  lemma LatestUpdateWins(limit: real, received: seq<seq<char>>, payload: seq<char>)
    ensures IsRateUpdate(payload) && RequestedLimit(payload) > 0.0 ==>
            ApplyUpdates(limit, received + [payload]) == RequestedLimit(payload)
  {
    ApplyUpdatesSnoc(limit, received, payload);
  }

  /** A rate update is read from what follows the prefix and nothing else. */
  lemma UpdateBody(limit: real, body: seq<char>)
    ensures IsRateUpdate(RateUpdatePrefix + body)
    ensures RequestedLimit(RateUpdatePrefix + body) == ParseDecimal(body)
    ensures NewLimit(limit, RateUpdatePrefix + body) ==
            if ParseDecimal(body) > 0.0 then ParseDecimal(body) else limit
  {
    var p := RateUpdatePrefix + body;
    assert p[..|RateUpdatePrefix|] == RateUpdatePrefix;
    assert p[|RateUpdatePrefix|..] == body;
  }

  /** "BANDWIDTH_LIMIT:" followed by a positive whole number sets the limit to that number. */
  lemma WholeNumberUpdate(limit: real, k: nat, tail: seq<char>)
    requires k > 0
    requires tail == [] || !(IsDigit(tail[0]) || tail[0] in ".eE")
    ensures NewLimit(limit, RateUpdatePrefix + (ShowNat(k) + tail)) == k as real
  {
    UpdateBody(limit, ShowNat(k) + tail);
    ParseShowNat(k, tail);
  }

  /** An update of 12.5 Mbps: "BANDWIDTH_LIMIT:12.5" sets the limit to 12.5. */
  lemma FractionalUpdate(limit: real)
    ensures NewLimit(limit, "BANDWIDTH_LIMIT:12.5") == 12.5
  {
    var whole: seq<char> := "12";
    var frac: seq<char> := "5";
    var body := whole + "." + frac + [];
    assert RateUpdatePrefix + body == "BANDWIDTH_LIMIT:12.5";
    assert NatValue(whole) == 12 by {
      assert whole[..1] == "1";
    }
    assert FracValue(frac) == 0.5 by {
      assert frac[1..] == [];
    }
    ParseDigitsDotDigits(whole, frac, []);
    UpdateBody(limit, body);
  }

  /** A zero value leaves the limit alone. */
  lemma ZeroUpdateIgnored(limit: real)
    ensures NewLimit(limit, "BANDWIDTH_LIMIT:0") == limit
  {
    ParseShowNat(0, []);
    assert ShowNat(0) + [] == "0";
    UpdateBody(limit, "0");
    assert RateUpdatePrefix + "0" == "BANDWIDTH_LIMIT:0";
  }

  /** A negative value leaves the limit alone. */
  lemma NegativeUpdateIgnored(limit: real)
    ensures NewLimit(limit, "BANDWIDTH_LIMIT:-5") == limit
  {
    var body: seq<char> := "-5";
    assert SkipSpace(body) == body;
    assert ParseDecimal(body) <= 0.0;
    UpdateBody(limit, body);
    assert RateUpdatePrefix + body == "BANDWIDTH_LIMIT:-5";
  }

  /** A value whose first non-blank character cannot begin a number for `atof` reads as zero and leaves the limit alone. */
  lemma UnparseableUpdatesIgnored(limit: real, body: seq<char>)
    requires var t := SkipSpace(body); t == [] || !(IsDigit(t[0]) || t[0] in "+-.iInN")
    ensures NewLimit(limit, RateUpdatePrefix + body) == limit
  {
    NoNumberReadsZero(body);
    UpdateBody(limit, body);
  }

  /** "fast" is such a value. */
  lemma UnparseableUpdateIgnored(limit: real)
    ensures NewLimit(limit, "BANDWIDTH_LIMIT:fast") == limit
  {
    var body: seq<char> := "fast";
    assert SkipSpace(body) == body;
    assert LeadingDigits(body) == 0;
    assert FractionDigits(body) == [];
    UpdateBody(limit, body);
    assert RateUpdatePrefix + body == "BANDWIDTH_LIMIT:fast";
  }

  /** Nothing received, or a message without the prefix, leaves the limit alone. */
  lemma OtherPayloadsIgnored(limit: real, payload: seq<char>)
    requires payload == [] || !IsRateUpdate(payload)
    ensures NewLimit(limit, payload) == limit
  {
  }
}
