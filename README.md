# Bandwidth-test client: rate window, control channel and session set-up

This project models the sequential logic of the bandwidth-test client (`client.c`).
The client opens a TCP or UDP session to a server and runs an upload loop, a
download loop or both. Each loop keeps its own one-second rate window. A background
listener lets the server lower or raise the shared bandwidth limit with a
`BANDWIDTH_LIMIT:<Mbps>` message.

Modules:

- `RateLimiter`: one step of a loop's rate window. It adds the transfer to the
  window, compares the window's bytes with the allowance `limit × 1e6 / 8` (`Allowance`),
  and then pauses and restarts, restarts, or keeps counting (`Step`). The reset guard
  is a parameter. `WindowElapsed` is the `elapsed_time >= 1.0` test of the TCP-send loop
  and both receive loops. `NonNegativeElapsed` is the `elapsed_time >= 0` test of the
  UDP-send loop.
- `Transfer`: a whole loop run, as a function (`Run`) of the events the outside world
  supplies. An `Event` holds the transfer result `n`, the clock reading after the
  transfer, the clock reading taken when the window restarts, and the control payloads
  the listener handled before this pass reads the limit. Lemmas about runs cover
  counters, pauses, the limit, and how the two guards compare.
- `Session`: the class `TransferInfo` for `transfer_info_t`. Its methods are the
  listener loop and the send and receive loops. Each updates the fields in place and
  is proved equal to `Run` or `ApplyUpdates`. `SendGuard`/`ReceiveGuard` pick each
  loop's reset guard.
- `Control`: how one received payload changes the limit (`NewLimit`), and how a
  sequence of payloads does (`ApplyUpdates`).
- `Decimal`: the part of `atof` the listener relies on. That is leading white space,
  a sign, then `digits[.digits]`. A string with none of these reads as 0.
- `Client`: `main`'s decisions. They are argument decoding, the UDP `INIT`/`ACK`
  handshake, which loops are started and cancelled, and the bandwidth report.

Time is whole microseconds read from a caller-supplied clock. Elapsed time is
`now - start` as an integer, so it is negative when the clock went back. This
matters in two places:

- The UDP-send guard `elapsed >= 0` fails on a negative elapsed time.
- A pause `1 s - elapsed` exceeds one second on a negative elapsed time.

Pauses are returned rather than slept. Limits and allowances are exact `real`s.
A received payload is the bytes one `recv` returned. The empty payload stands for a
result of zero or less.

The comparison with the allowance is "at or above" (`>=`, client.c:71, 98, 140, 165).
A window carrying exactly its allowance therefore pauses. A limiter that lets exactly
the allowance through would differ; the model follows the code
(`RateLimiter.AllowanceBoundary`). The final report divides by the elapsed time
without a guard against zero. The model demands a positive elapsed time instead of
reporting 0.

## Model

| member | source | states |
|---|---|---|
| Decimal.ParseDecimal | client.c:33 | a positive value never comes from text whose first non-blank character is '-' |
| Decimal.NoNumberReadsZero | client.c:33 | text whose first non-blank character is not a digit, a sign, a point, or the first letter of "inf" or "nan" in either case reads as 0, whatever follows, as `atof` reads it |
| Decimal.BlankSkipped | client.c:33 | a leading white-space character changes nothing about the value read |
| Decimal.PlusSignRead | client.c:33 | a leading '+' is dropped: the value is that of the unsigned text after it |
| Decimal.MinusSignRead | client.c:33 | a leading '-' negates the value of the unsigned text after it |
| Decimal.ParseShowNat | client.c:33 | a whole number written in decimal reads back as that number when what follows is not a digit, a point or an exponent letter (nor 'x' after a lone 0), so that `atof` would stop there too |
| Decimal.ParseDigitsDotDigits | client.c:33 | a run of digits, a point and more digits read as the whole digits' value plus the fraction, when what follows is neither a digit nor an exponent letter |
| Decimal.LeadingPointFraction | client.c:33 | a point followed by digits reads as the fraction the digits spell (".5" reads as 0.5) when what follows is neither a digit nor an exponent letter |
| Decimal.ParseShowDecimal | client.c:33 | `whole.digits` reads back as the whole part plus the fraction the digits spell, when what follows is neither a digit nor an exponent letter |
| Control.NewLimit | client.c:28-37 | a positive limit stays positive; the limit changes only when the payload starts with the 16-byte prefix and the rest parses to a positive value, and then it becomes that value |
| Control.ApplyUpdates | client.c:26-40 | a positive limit stays positive across any sequence of received payloads |
| Control.ApplyUpdatesSnoc | client.c:26-40 | payloads are handled in arrival order: one more payload is one more NewLimit on the result so far |
| Control.ApplyUpdatesSource | client.c:31-35 | after any batch the limit is the old one or a positive value that one of the update messages asked for |
| Control.LatestUpdateWins | client.c:31-35 | a well-formed positive update is the value the next read of the limit sees, whatever came before it |
| Control.UpdateBody | client.c:31-35 | for a payload that is the prefix plus a body, the new limit is read from the body alone and taken only if positive |
| Control.WholeNumberUpdate | client.c:31-35 | "BANDWIDTH_LIMIT:" plus a positive whole number, followed by anything that is not a digit, a point or an exponent letter, sets the limit to that number |
| Control.FractionalUpdate | client.c:31-35 | "BANDWIDTH_LIMIT:12.5" sets the limit to 12.5 |
| Control.ZeroUpdateIgnored | client.c:34 | a value of 0 leaves the limit unchanged |
| Control.NegativeUpdateIgnored | client.c:34 | a negative value leaves the limit unchanged |
| Control.UnparseableUpdatesIgnored | client.c:33-34 | every update whose value cannot begin a number for `atof` (not a digit, sign or point, nor the first letter of "inf" or "nan") reads as 0 and leaves the limit unchanged |
| Control.UnparseableUpdateIgnored | client.c:33-34 | "BANDWIDTH_LIMIT:fast" reads as 0 and leaves the limit unchanged |
| Control.OtherPayloadsIgnored | client.c:29-31 | nothing received, or a payload without the prefix, leaves the limit unchanged |
| RateLimiter.Allowance | client.c:68 | the allowance is positive exactly when the limit is, and equals limit × 125000 bytes |
| RateLimiter.Step | client.c:63-78 | pause iff the window is under one second old and carries its allowance or more; such a pause lasts 1 s minus the elapsed time and restarts an empty window at the restart reading; a pause is at most 1 s when the clock did not go back; otherwise the window either restarts empty or keeps its start with n more bytes |
| RateLimiter.CompletedWindowResets | client.c:98-105 | with the one-second guard, once a second has elapsed the window restarts empty with no pause, whatever it carried |
| RateLimiter.OpenWindowAccumulates | client.c:98-105 | with the one-second guard, an open window below its allowance keeps its start, grows by n and causes no pause |
| RateLimiter.NonNegativeGuardAlwaysResets | client.c:71-78 | with the UDP-send guard, every step on a clock that did not go back ends in an empty window started at the restart reading |
| RateLimiter.NonNegativeGuardPausesOnlyForOneDatagram | client.c:71-78 | from an empty window, the UDP-send loop pauses exactly when the single datagram reaches the allowance |
| RateLimiter.GuardsAgreeOnPause | client.c:71-105 | the two guards always produce the same pause |
| RateLimiter.GuardsDiffer | client.c:71-105 | the two guards produce different windows exactly when 0 <= elapsed < 1 s and the window is below its allowance |
| RateLimiter.EightMbpsBurst | client.c:96-101 | at 8 Mbps the allowance is 1,000,000 bytes, and 2,000,000 bytes at the start of a window pause for a full second |
| RateLimiter.AllowanceBoundary | client.c:98 | exactly the allowance pauses (for the rest of the second); one byte less does not |
| RateLimiter.TightenedLimitTakesEffect | client.c:96-101 | the same window that keeps counting at 8 Mbps pauses at once when the limit read at that check is 1 Mbps |
| Transfer.StepState | client.c:88-105 | a counted transfer adds n to the loop's counter and appends one pause, keeping the earlier ones; the limit is re-read after the listener's payloads, and the new pause and window are those of the window check at that limit |
| Transfer.NextCheckUsesLatestUpdate | client.c:88-101 | when the last payload before a counted transfer is a positive update, that transfer's pause is the one the window check gives at the requested limit, whatever limit was read before |
| Transfer.Completed | client.c:83-86 | the counted transfers are exactly those before the first result of zero or less |
| Transfer.Run | client.c:57-173 | one definition of all four transfer loops, which stop at the first result of zero or less or when cancelled: after a run the counter is its start plus the sum of the counted sizes, with one pause per counted transfer and earlier pauses kept |
| Transfer.RunMonotone | client.c:84-89 | the counter never decreases, and grows strictly when some transfer was counted |
| Transfer.RunKeepsLimitPositive | client.c:29-35 | a positive limit stays positive through every update a run sees |
| Transfer.RunPausesBounded | client.c:98-101 | on a clock that never goes back every pause of a run is at most one second |
| Transfer.NonNegativeGuardWindowStaysEmpty | client.c:57-79 | on a clock that never goes back the UDP-send loop's window is empty after every run, so it is empty at the start of every pass |
| Transfer.NonNegativeGuardNeverThrottles | client.c:57-79 | under the UDP-send guard, datagrams each below the allowance never cause a pause, however many arrive in one second |
| Transfer.WindowElapsedThrottles | client.c:82-106 | under the one-second guard, transfers that bring a window to its allowance before its second is over always cause a pause |
| Transfer.UdpSendBurstUnthrottled | client.c:71-78 | at 8 Mbps the UDP-send loop moves 1,029,000 bytes within one millisecond of a window without any pause |
| Transfer.WindowedSendBurstThrottled | client.c:98-105 | the same burst under the one-second guard pauses |
| Session.SendGuard | client.c:71-105 | the UDP send loop restarts its window on every elapsed time of 0 or more, the TCP send loop only once a full second has elapsed |
| Session.ReceiveGuard | client.c:140-169 | both receive loops restart their window exactly once a full second has elapsed |
| Session.TransferInfo.constructor | client.c:285-293 | a new session has both counters at 0, the limit at 1e6 Mbps, its protocol flag and its start time |
| Session.TransferInfo.ListenForBandwidthLimit | client.c:23-42 | the limit field ends as ApplyUpdates of its old value over the received payloads, and stays positive |
| Session.TransferInfo.SendData | client.c:45-110 | the sent counter, the limit and the pauses end as Run with the send guard (which depends on the protocol) predicts, from an empty window at the loop's start reading |
| Session.TransferInfo.ReceiveData | client.c:113-177 | the received counter, the limit and the pauses end as Run with the one-second guard predicts |
| Client.ParseProtocol | client.c:225-232 | "tcp" selects a stream socket and "udp" a datagram socket; any other word is an invalid-protocol error naming it |
| Client.ParseMode | client.c:235-244 | "up", "down" and "double" select modes 0, 1 and 2; any other word is an invalid-mode error naming it |
| Client.ParseArgs | client.c:216-244 | fewer than three arguments is a usage error; success exactly when both words are valid; a bad protocol is reported by name before the mode is looked at, and a bad mode after a valid protocol is reported by name |
| Client.ParseConfigWords | client.c:216-244 | every configuration is selected by its own two words, whatever the program name and trailing words |
| Client.ParsedWordsDetermineConfig | client.c:225-244 | a successful decoding determines the two words it came from |
| Client.StartedLoops | client.c:319-333 | the send loop starts unless the mode is down, the receive loop unless the mode is up |
| Client.CancelledLoops | client.c:340-348 | the send loop is cancelled unless the mode is down, the receive loop unless the mode is up |
| Client.CancelMirrorsStart | client.c:319-348 | the cancelled loops are exactly the started ones, every mode starts at least one, and only double starts both |
| Client.HandshakeMessages | client.c:303-305 | on the session socket only a UDP session sends anything before the loops (server discovery, which both protocols perform, uses its own socket), and it sends exactly one datagram, INIT with its NUL, 5 bytes |
| Client.AckPrefixAccepted | client.c:311 | every reply that begins with "ACK" is accepted, whatever follows |
| Client.AckMismatchRefused | client.c:311 | a reply that differs from "ACK" at any of its first three characters is refused |
| Client.ShortReplyRefused | client.c:311 | a reply shorter than three bytes, the empty one included, is refused |
| Client.AckExamples | client.c:311 | "ACK-ready" and "ACK" are accepted; "NAK", nothing and "ACk" are not |
| Client.Setup | client.c:216-333 | argument errors abort set-up; after valid arguments set-up fails exactly for a UDP session whose reply is empty or does not begin with ACK, and that failure is the missing-ACK error; a ready session starts the loops its mode selects with the initial limit |
| Client.StreamSetupIgnoresReply | client.c:303-316 | a TCP session never depends on the handshake reply and always gets past it |
| Client.BandwidthMbps | client.c:352-356 | bandwidth times elapsed microseconds is the number of bits moved |
| Client.ReportExample | client.c:352-356 | 10,000,000 bytes over 2 s report 40 Mbps |

## Findings

| source | as written | input that shows it | evidently intended | confidence | as-written member | corrected member |
|---|---|---|---|---|---|---|
| client.c:75 | the UDP-send loop restarts its window after every transfer that does not pause (`elapsed_time >= 0`), so the window never accumulates and only a single datagram reaching the allowance causes a pause | limit 8 Mbps, 700 datagrams of 1470 bytes sent 1 µs apart from the window's start: 1,029,000 bytes, above the 1,000,000-byte allowance, with no pause | `elapsed_time >= 1.0`, as in the other three loops (client.c:102, 144, 169) | not executed; high | Transfer.UdpSendBurstUnthrottled | Transfer.WindowedSendBurstThrottled |

The corrected guard is `RateLimiter.WindowElapsed`, the guard of the TCP-send loop and
both receive loops. `Transfer.WindowElapsedThrottles` proves the intended property for
it. `Session.TransferInfo.SendData` keeps the as-written guard for UDP, so that the
class still describes `client.c`.

## Left out

- Socket I/O (`socket`, `connect`, `send`, `recv`, `sendto`, `recvfrom`): transfer results and received payloads are inputs. Socket-creation and connect failures are not modelled. The filler bytes sent are not modelled, only their count.
- Server discovery in `get_server_ip` (client.c:179-213) is not part of this model. It is pure network I/O, and it leaves `server_ip` unset when no reply arrives.
- Threads, `pthread_create`/`cancel`/`join`, and the unsynchronised sharing of `transfer_info_t`: each loop is a sequential method. The listener's work between two limit reads is the `updates` of the next `Event`. The listener is started (client.c:296) before the UDP handshake and calls `recv` on the session socket, so it races every other reader of that socket: the TCP receive loop (client.c:28, 152), the UDP receive loop (client.c:126) and the handshake's `recvfrom` (client.c:310). None of these races is modelled; each datagram or payload goes to exactly one reader, as the model's inputs say.
- Client.Setup: its `ackReply` is the datagram the main thread's `recvfrom` gets (client.c:310). The listener can take the server's ACK first (client.c:28) and leave `main` blocked; that outcome is not modelled.
- `gettimeofday` and `usleep`: clock readings are parameters, and the pause is returned in whole microseconds.
- IEEE double rounding in `elapsed_time`, `max_bytes_per_sec`, the `usleep` argument and the report: all arithmetic is exact.
- Decimal.ParseDecimal: `atof`'s own rounding to a double is not modelled. A value of 400 digits reads as infinity in the source, and "0." followed by 400 zeros and a "1" reads as 0.0 and is ignored there; the model adopts the exact value in both cases.
- Decimal.ParseDecimal: reads only white space, a sign and `digits[.digits]`. Exponents, hexadecimal forms, `inf` and `nan` are not read. So "1e3" reads as 1 rather than 1000, and "inf" as 0.
- Counters are unbounded integers; the 64-bit `long` overflow is not modelled.
- Session.TransferInfo.ListenForBandwidthLimit: requires every payload to be shorter than the 1470-byte buffer. A full-buffer payload makes `buffer[n] = '\0'` write past the end (client.c:30).
- Client.Setup: requires, for UDP, that the reply not be exactly "A" or "AC". For those replies `strncmp` reads bytes the reply did not fill (client.c:311), so the outcome is undefined.
- Client.BandwidthMbps: requires a positive elapsed time; the source divides without a guard (client.c:355-356).
- The UDP receive loop overwriting `server_addr` with each sender's address (client.c:126) is not modelled.
- Console output, `perror`, `getchar` and exit codes.
