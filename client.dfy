/**
 * The sequential decisions `main` makes: decoding the two command-line
 * words, the UDP handshake, which loops are started and cancelled, and the
 * final bandwidth report.
 */
module Client {
  import opened Wrappers
  import Control

  /** tcp opens a stream socket, udp a datagram socket. */
  datatype Protocol = Stream | Datagram

  datatype Mode = Up | Down | Double

  /** The integer `main` keeps for the mode. */
  function ModeCode(m: Mode): (code: int)
    ensures 0 <= code <= 2
  {
    match m
    case Up => 0
    case Down => 1
    case Double => 2
  }

  datatype Config = Config(protocol: Protocol, mode: Mode)

  datatype ArgError = Usage | InvalidProtocol(word: string) | InvalidMode(word: string)

  function ParseProtocol(word: string): (r: Result<Protocol, ArgError>)
    ensures r.Success? <==> word == "tcp" || word == "udp"
    ensures r.Success? ==> (r.value == Datagram <==> word == "udp")
    ensures r.Failure? ==> r.error == InvalidProtocol(word)
  {
    if word == "tcp" then Success(Stream)
    else if word == "udp" then Success(Datagram)
    else Failure(InvalidProtocol(word))
  }

  function ParseMode(word: string): (r: Result<Mode, ArgError>)
    ensures r.Success? <==> word == "up" || word == "down" || word == "double"
    ensures r.Success? ==> ModeCode(r.value) == (if word == "up" then 0 else if word == "down" then 1 else 2)
    ensures r.Failure? ==> r.error == InvalidMode(word)
  {
    if word == "up" then Success(Up)
    else if word == "down" then Success(Down)
    else if word == "double" then Success(Double)
    else Failure(InvalidMode(word))
  }

  /** argv as C passes it: the program name first. Words after the second are ignored; the protocol is checked first. */
  function ParseArgs(argv: seq<string>): (r: Result<Config, ArgError>)
    ensures |argv| < 3 ==> r == Failure(Usage)
    ensures r.Success? <==> |argv| >= 3 && ParseProtocol(argv[1]).Success? && ParseMode(argv[2]).Success?
    ensures |argv| >= 3 && ParseProtocol(argv[1]).Failure? ==> r == Failure(InvalidProtocol(argv[1]))
    ensures |argv| >= 3 && ParseProtocol(argv[1]).Success? && ParseMode(argv[2]).Failure? ==> r == Failure(InvalidMode(argv[2]))
    ensures r.Success? ==> r.value == Config(ParseProtocol(argv[1]).value, ParseMode(argv[2]).value)
  {
    if |argv| < 3 then Failure(Usage)
    else
      match ParseProtocol(argv[1])
      case Failure(e) => Failure(e)
      case Success(protocol) =>
        match ParseMode(argv[2])
        case Failure(e) => Failure(e)
        case Success(mode) => Success(Config(protocol, mode))
  }

  /** The two words that select a configuration. */
  function ConfigWords(c: Config): (words: seq<string>)
    ensures |words| == 2
  {
    [if c.protocol == Stream then "tcp" else "udp",
     match c.mode case Up => "up" case Down => "down" case Double => "double"]
  }

  /** Every configuration is selected by its own two words, whatever the program name and trailing words. */
  lemma ParseConfigWords(program: string, c: Config, extra: seq<string>)
    ensures ParseArgs([program] + ConfigWords(c) + extra) == Success(c)
  {
    var argv := [program] + ConfigWords(c) + extra;
    assert argv[1] == ConfigWords(c)[0] && argv[2] == ConfigWords(c)[1];
  }

  /** And those are the only words that select it. */
  lemma ParsedWordsDetermineConfig(argv: seq<string>)
    requires ParseArgs(argv).Success?
    ensures argv[1..3] == ConfigWords(ParseArgs(argv).value)
  {
  }

  /** The loops `main` can start. */
  datatype Loop = SendLoop | ReceiveLoop

  /** The loops `main` starts for a mode, decided on its integer code. */
  function StartedLoops(m: Mode): (loops: set<Loop>)
    ensures SendLoop in loops <==> m != Down
    ensures ReceiveLoop in loops <==> m != Up
  {
    var code := ModeCode(m);
    (if code == 0 || code == 2 then {SendLoop} else {}) + (if code == 1 || code == 2 then {ReceiveLoop} else {})
  }

  /** The loops `main` cancels and joins at the end, decided again on the same code. */
  function CancelledLoops(m: Mode): (loops: set<Loop>)
    ensures SendLoop in loops <==> m != Down
    ensures ReceiveLoop in loops <==> m != Up
  {
    var code := ModeCode(m);
    var send := if code == 0 || code == 2 then {SendLoop} else {};
    var receive := if code == 1 || code == 2 then {ReceiveLoop} else {};
    send + receive
  }

  /** Cancellation mirrors start-up exactly, every mode starts a loop, and only bidirectional mode starts both. */
  lemma CancelMirrorsStart(m: Mode)
    ensures CancelledLoops(m) == StartedLoops(m)
    ensures StartedLoops(m) != {}
    ensures StartedLoops(m) == {SendLoop, ReceiveLoop} <==> m == Double
  {
    if m != Double {
      assert SendLoop !in StartedLoops(m) || ReceiveLoop !in StartedLoops(m);
    }
  }

  /** "INIT" with its terminating NUL: `sizeof` of the array counts it. */
  const InitMessage: seq<char> := "INIT" + ['\0']

  const AckMarker: seq<char> := "ACK"

  /** The datagrams the handshake sends before any loop starts. */
  function HandshakeMessages(p: Protocol): (sent: seq<seq<char>>)
    ensures sent == [] <==> p == Stream
    ensures |sent| <= 1
    ensures forall i :: 0 <= i < |sent| ==> sent[i] == InitMessage && |sent[i]| == 5
  {
    match p
    case Datagram => [InitMessage]
    case Stream => []
  }

  /**
   * The reply is decided by its own bytes: a 1- or 2-byte reply that is a
   * prefix of "ACK" would make the check read bytes the reply did not fill.
   */
  predicate AckDecidable(reply: seq<char>) {
    !(0 < |reply| < |AckMarker| && reply == AckMarker[..|reply|])
  }

  /** The handshake reply is accepted: it is not empty and begins with "ACK". The empty reply stands for a result of zero or less. */
  predicate AckAccepted(reply: seq<char>) {
    |reply| > 0 && |reply| >= |AckMarker| && reply[..|AckMarker|] == AckMarker
  }

  /** Every reply that begins with "ACK" is accepted, whatever follows. */
  lemma AckPrefixAccepted(rest: seq<char>)
    ensures AckAccepted(AckMarker + rest)
  {
    assert (AckMarker + rest)[..|AckMarker|] == AckMarker;
  }

  /** A reply that differs from "ACK" at one of its first three characters is refused. */
  lemma AckMismatchRefused(reply: seq<char>, k: nat)
    requires k < |AckMarker| && k < |reply| && reply[k] != AckMarker[k]
    ensures !AckAccepted(reply)
  {
    if |reply| >= |AckMarker| {
      assert reply[..|AckMarker|][k] == reply[k];
    }
  }

  /** A reply shorter than "ACK" is refused. */
  lemma ShortReplyRefused(reply: seq<char>)
    requires |reply| < |AckMarker|
    ensures !AckAccepted(reply)
  {
  }

  lemma AckExamples()
    ensures AckAccepted("ACK-ready") && AckAccepted("ACK")
    ensures !AckAccepted("NAK") && !AckAccepted([]) && !AckAccepted("ACk")
  {
    assert ("ACK-ready")[..3] == "ACK";
    assert ("ACk")[..3] != "ACK" by { assert ("ACk")[..3][2] != AckMarker[2]; }
    assert ("NAK")[..3] != "ACK" by { assert ("NAK")[..3][0] != AckMarker[0]; }
  }

  datatype SetupError = BadArguments(cause: ArgError) | NoAck

  /** What `main` has set up once it is ready to start the loops. */
  datatype Plan = Plan(config: Config, handshake: seq<seq<char>>, loops: set<Loop>, limitMbps: real)

  /**
   * Decoding the arguments, then for UDP the handshake, whose reply is ackReply
   * (a TCP session never reads it). Discovery, socket creation and connect are
   * not part of this function.
   */
  function Setup(argv: seq<string>, ackReply: seq<char>): (r: Result<Plan, SetupError>)
    requires ParseArgs(argv).Success? && ParseArgs(argv).value.protocol == Datagram ==> AckDecidable(ackReply)
    ensures ParseArgs(argv).Failure? ==> r == Failure(BadArguments(ParseArgs(argv).error))
    ensures r.Success? ==> ParseArgs(argv) == Success(r.value.config)
    ensures r.Success? ==> r.value.loops == StartedLoops(r.value.config.mode) && r.value.limitMbps == Control.InitialLimitMbps
    ensures r.Success? ==> r.value.handshake == HandshakeMessages(r.value.config.protocol)
    ensures r.Success? && r.value.config.protocol == Datagram ==> AckAccepted(ackReply)
    ensures ParseArgs(argv).Success? ==> (r.Failure? <==> ParseArgs(argv).value.protocol == Datagram && !AckAccepted(ackReply))
    ensures ParseArgs(argv).Success? && r.Failure? ==> r.error == NoAck
  {
    match ParseArgs(argv)
    case Failure(e) => Failure(BadArguments(e))
    case Success(c) =>
      if c.protocol == Datagram && !AckAccepted(ackReply) then Failure(NoAck)
      else Success(Plan(c, HandshakeMessages(c.protocol), StartedLoops(c.mode), Control.InitialLimitMbps))
  }

  /** TCP setup never depends on the handshake reply. */
  lemma StreamSetupIgnoresReply(argv: seq<string>, a: seq<char>, b: seq<char>)
    requires ParseArgs(argv).Success? && ParseArgs(argv).value.protocol == Stream
    ensures Setup(argv, a) == Setup(argv, b) && Setup(argv, a).Success?
  {
  }

  /** Megabits per second moved by bytes over elapsedMicros, as the final report computes it. */
  function BandwidthMbps(bytes: int, elapsedMicros: int): (mbps: real)
    requires elapsedMicros > 0
    ensures mbps * (elapsedMicros as real) == (bytes * 8) as real
  {
    var elapsedSeconds := elapsedMicros as real / 1000000.0;
    var mbps := (bytes as real * 8.0) / elapsedSeconds / 1000000.0;
    assert mbps == (bytes * 8) as real / elapsedMicros as real;
    mbps
  }

  lemma ReportExample()
    ensures BandwidthMbps(10000000, 2000000) == 40.0
  {
  }
}
