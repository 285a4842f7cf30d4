/**
 * The launch stage: after the arguments are resolved, check that the
 * launcher executable exists, build the shared `host:port` target once, and
 * start the tracker once per selected player, logging each failure and
 * carrying on with the other players.
 */
module Launcher {
  import opened Consts
  import opened Errors
  import opened Environment
  import opened Discovery
  import opened Args

  // ---------------------------------------------------------------------
  // Rendering the port in decimal

  predicate IsDigit(c: char) {
    '0' <= c <= '9'
  }

  function DigitChar(d: nat): (c: char)
    requires d < 10
    ensures IsDigit(c)
  {
    ('0' as int + d) as char
  }

  function DigitValue(c: char): (d: nat)
    requires IsDigit(c)
    ensures d < 10 && DigitChar(d) == c
  {
    c as int - '0' as int
  }

  /** The decimal text of `n`: digits only, and no leading zero unless `n` is zero. */
  function Decimal(n: nat): (s: string)
    ensures |s| > 0 && forall k :: 0 <= k < |s| ==> IsDigit(s[k])
    ensures s[0] == '0' ==> s == "0"
  {
    if n < 10 then [DigitChar(n)] else Decimal(n / 10) + [DigitChar(n % 10)]
  }

  /** Reads a string of digits back as a number; the partner of Decimal. */
  function ParseDecimal(s: string): nat
    requires forall k :: 0 <= k < |s| ==> IsDigit(s[k])
  {
    if s == [] then 0 else 10 * ParseDecimal(s[..|s| - 1]) + DigitValue(s[|s| - 1])
  }

  lemma {:induction false} DecimalRoundTrip(n: nat)
    ensures ParseDecimal(Decimal(n)) == n
  {
    var s := Decimal(n);
    if n >= 10 {
      DecimalRoundTrip(n / 10);
      assert s[..|s| - 1] == Decimal(n / 10);
    }
  }

  // ---------------------------------------------------------------------
  // The connection target and the argument vector

  /**
   * The connection target: the host, a colon, and the port in decimal, with
   * nothing escaped. The host comes back verbatim from splitting at the last
   * colon, even when it contains colons itself, followed by the port's text.
   */
  function Url(host: string, port: Port): (url: string)
    ensures SplitUrl(url) == Some((host, Decimal(port as nat)))
  {
    var d := Decimal(port as nat);
    var url := host + ":" + d;
    var h := |host|;
    assert url[h] == ':';
    assert forall k :: h < k < |url| ==> url[k] == d[k - h - 1];
    assert LastIndexOf(url, ':') == Some(h);
    assert url[..h] == host;
    assert url[h + 1..] == d;
    url
  }

  /** Splits a target at its last colon into host and port text. */
  function SplitUrl(url: string): Option<(string, string)> {
    match LastIndexOf(url, ':')
    case None => None
    case Some(i) => Some((url[..i], url[i + 1..]))
  }

  /** Distinct host/port pairs give distinct targets. */
  lemma UrlInjective(h1: string, p1: Port, h2: string, p2: Port)
    requires Url(h1, p1) == Url(h2, p2)
    ensures h1 == h2 && p1 == p2
  {
    DecimalRoundTrip(p1 as nat);
    DecimalRoundTrip(p2 as nat);
  }

  /** Recognises a tracker argument vector and gives back its user and target. */
  function ReadTrackerArgs(args: seq<string>): Option<(string, string)> {
    if |args| == 6 && args[0] == TrackerArg && args[1] == "--" && args[2] == "--name" && args[4] == "--connect"
    then Some((args[3], args[5]))
    else None
  }

  /** The arguments the launcher is started with for one user. */
  function TrackerArgs(user: string, url: string): (args: seq<string>)
    ensures ReadTrackerArgs(args) == Some((user, url))
  {
    [TrackerArg, "--", "--name", user, "--connect", url]
  }

  /** Only tracker argument vectors are recognised: the shape is exactly six fixed-position arguments. */
  lemma ReadTrackerArgsExact(args: seq<string>, user: string, url: string)
    requires ReadTrackerArgs(args) == Some((user, url))
    ensures args == TrackerArgs(user, url)
  {
    assert |args| == |TrackerArgs(user, url)|;
    forall k | 0 <= k < |args| ensures args[k] == TrackerArgs(user, url)[k] {
    }
  }

  // ---------------------------------------------------------------------
  // Launching

  /** A spawn failure and a wait failure are one and the same failure; an exit status is not inspected. */
  function Failure(o: LaunchOutcome): (f: Option<string>)
    ensures f.Some? <==> !o.Exited?
  {
    match o
    case SpawnFailed(cause) => Some(cause)
    case WaitFailed(cause) => Some(cause)
    case Exited(_) => None
  }

  /** What one player's attempt logs: that the user is run, then the failure, if any. */
  function PlayerLog(user: string, o: LaunchOutcome): seq<LogLine> {
    [Info(user)] + if Failure(o).Some? then [Warn(RunFailed(user, Failure(o).value))] else []
  }

  /** The log of attempting every player in order, the `k`-th attempt having outcome `outcomes(k)`. */
  function LaunchLog(players: seq<string>, outcomes: nat -> LaunchOutcome): seq<LogLine> {
    if players == [] then []
    else LaunchLog(players[..|players| - 1], outcomes) + PlayerLog(players[|players| - 1], outcomes(|players| - 1))
  }

  /** The number of attempts among the first `|players|` that fail. */
  function FailureCount(players: seq<string>, outcomes: nat -> LaunchOutcome): nat {
    if players == [] then 0
    else FailureCount(players[..|players| - 1], outcomes) + if Failure(outcomes(|players| - 1)).Some? then 1 else 0
  }

  function WarningCount(log: seq<LogLine>): nat {
    if log == [] then 0 else WarningCount(log[..|log| - 1]) + if log[|log| - 1].Warn? then 1 else 0
  }

  lemma {:induction false} WarningCountAppend(a: seq<LogLine>, b: seq<LogLine>)
    ensures WarningCount(a + b) == WarningCount(a) + WarningCount(b)
  {
    if b != [] {
      assert (a + b)[..|a + b| - 1] == a + b[..|b| - 1];
      WarningCountAppend(a, b[..|b| - 1]);
    } else {
      assert a + b == a;
    }
  }

  lemma PlayerLogWarnings(user: string, o: LaunchOutcome)
    ensures WarningCount(PlayerLog(user, o)) == if Failure(o).Some? then 1 else 0
  {
    var info := [Info(user)];
    assert info[..0] == [];
    assert WarningCount(info) == 0;
    if Failure(o).Some? {
      var warn := [Warn(RunFailed(user, Failure(o).value))];
      assert warn[..0] == [];
      assert WarningCount(warn) == 1;
      WarningCountAppend(info, warn);
    } else {
      assert PlayerLog(user, o) == info;
    }
  }

  /** The launch log holds exactly one warning per failed attempt. */
  lemma {:induction false} LaunchLogWarnings(players: seq<string>, outcomes: nat -> LaunchOutcome)
    ensures WarningCount(LaunchLog(players, outcomes)) == FailureCount(players, outcomes)
  {
    if players != [] {
      var init := players[..|players| - 1];
      var last := |players| - 1;
      LaunchLogWarnings(init, outcomes);
      WarningCountAppend(LaunchLog(init, outcomes), PlayerLog(players[last], outcomes(last)));
      PlayerLogWarnings(players[last], outcomes(last));
    }
  }

  /**
   * Failures are isolated: every warning names a player whose own attempt
   * failed, with that attempt's cause.
   */
  lemma {:induction false} LaunchLogBlamesFailedAttempt(players: seq<string>, outcomes: nat -> LaunchOutcome, u: string, c: string)
    requires Warn(RunFailed(u, c)) in LaunchLog(players, outcomes)
    ensures exists k :: 0 <= k < |players| && players[k] == u && Failure(outcomes(k)) == Some(c)
  {
    var init := players[..|players| - 1];
    var last := |players| - 1;
    if Warn(RunFailed(u, c)) in LaunchLog(init, outcomes) {
      LaunchLogBlamesFailedAttempt(init, outcomes, u, c);
      var k :| 0 <= k < |init| && init[k] == u && Failure(outcomes(k)) == Some(c);
      assert players[k] == init[k];
    } else {
      assert players[last] == u && Failure(outcomes(last)) == Some(c);
    }
  }

  /** Every failed attempt is warned about, naming its own player and cause. */
  lemma {:induction false} LaunchLogWarnsEveryFailure(players: seq<string>, outcomes: nat -> LaunchOutcome, k: nat, c: string)
    requires k < |players| && Failure(outcomes(k)) == Some(c)
    ensures Warn(RunFailed(players[k], c)) in LaunchLog(players, outcomes)
  {
    var init := players[..|players| - 1];
    var last := |players| - 1;
    if k < last {
      LaunchLogWarnsEveryFailure(init, outcomes, k, c);
      assert players[k] == init[k];
    } else {
      assert PlayerLog(players[k], outcomes(k))[1] == Warn(RunFailed(players[k], c));
    }
  }

  /** Every player's attempt is announced, whatever the other attempts do. */
  lemma {:induction false} LaunchLogAnnouncesEveryPlayer(players: seq<string>, outcomes: nat -> LaunchOutcome, k: nat)
    requires k < |players|
    ensures Info(players[k]) in LaunchLog(players, outcomes)
  {
    var init := players[..|players| - 1];
    var last := |players| - 1;
    if k < last {
      LaunchLogAnnouncesEveryPlayer(init, outcomes, k);
      assert players[k] == init[k];
    } else {
      assert PlayerLog(players[k], outcomes(k))[0] == Info(players[k]);
    }
  }

  /** Attempting one more player extends the log by that player's lines. */
  lemma LaunchLogStep(players: seq<string>, outcomes: nat -> LaunchOutcome, k: nat)
    requires k < |players|
    ensures LaunchLog(players[..k + 1], outcomes) == LaunchLog(players[..k], outcomes) + PlayerLog(players[k], outcomes(k))
  {
    var done := players[..k + 1];
    assert done[..k] == players[..k] && done[k] == players[k];
  }

  /** Each warning line of `Warns(ws)` counts once. */
  lemma {:induction false} WarnsCount(ws: seq<Warning>)
    ensures WarningCount(Warns(ws)) == |ws|
  {
    if ws != [] {
      var first := [Warn(ws[0])];
      assert first[..0] == [];
      assert Warns(ws) == first + Warns(ws[1..]);
      WarnsCount(ws[1..]);
      WarningCountAppend(first, Warns(ws[1..]));
    }
  }

  /**
   * In the log of a run that reaches the launch stage, the warnings are the
   * resolution's warnings plus exactly one per failed attempt.
   */
  lemma RunLogWarnings(ws: seq<Warning>, players: seq<string>, outcomes: nat -> LaunchOutcome)
    ensures WarningCount(Warns(ws) + LaunchLog(players, outcomes)) == |ws| + FailureCount(players, outcomes)
  {
    WarningCountAppend(Warns(ws), LaunchLog(players, outcomes));
    WarnsCount(ws);
    LaunchLogWarnings(players, outcomes);
  }

  /**
   * Every launch-failure warning in the log of a run that reaches the launch
   * stage names a player whose own attempt failed: resolution never logs one.
   */
  lemma RunLogBlamesFailedAttempt(config: ConfigFile, locationAnswer: Result<string>, portAnswer: Result<Port>,
                                  fs: FileSystem, parse: string -> ParseResult, sels: seq<Selection>,
                                  players: seq<string>, outcomes: nat -> LaunchOutcome, u: string, c: string)
    requires UserCooperates(config, locationAnswer, portAnswer, fs, parse, sels)
    requires Warn(RunFailed(u, c)) in Warns(ResolutionLog(config, locationAnswer, portAnswer, fs, parse, sels)) + LaunchLog(players, outcomes)
    ensures exists k :: 0 <= k < |players| && players[k] == u && Failure(outcomes(k)) == Some(c)
  {
    var ws := ResolutionLog(config, locationAnswer, portAnswer, fs, parse, sels);
    ResolutionLogWarnings(config, locationAnswer, portAnswer, fs, parse, sels);
    LaunchStageBlamesFailedAttempt(ws, players, outcomes, u, c);
  }

  /** After warnings about files and empty selections, every launch-failure warning comes from the launch log. */
  lemma LaunchStageBlamesFailedAttempt(ws: seq<Warning>, players: seq<string>, outcomes: nat -> LaunchOutcome, u: string, c: string)
    requires forall w :: w in ws ==> FileWarning(w) || w == EmptySelection
    requires Warn(RunFailed(u, c)) in Warns(ws) + LaunchLog(players, outcomes)
    ensures exists k :: 0 <= k < |players| && players[k] == u && Failure(outcomes(k)) == Some(c)
  {
    NoLaunchWarning(ws, u, c);
    var before, log := Warns(ws), LaunchLog(players, outcomes);
    assert Warn(RunFailed(u, c)) in before + log;
    assert Warn(RunFailed(u, c)) in log;
    LaunchLogBlamesFailedAttempt(players, outcomes, u, c);
  }

  /** Warnings about files and empty selections render no launch-failure line. */
  lemma NoLaunchWarning(ws: seq<Warning>, u: string, c: string)
    requires forall w :: w in ws ==> FileWarning(w) || w == EmptySelection
    ensures Warn(RunFailed(u, c)) !in Warns(ws)
  {
    forall i | 0 <= i < |ws| ensures Warns(ws)[i] != Warn(RunFailed(u, c)) {
      assert ws[i] in ws;
    }
  }

  /** The process started for `user`: the launcher with the tracker arguments, in the game's location. */
  function Invocation(program: Path, location: Path, url: string, user: string): Command {
    Command(program, TrackerArgs(user, url), location)
  }

  /**
   * One player's attempt: announce the user, start the tracker with the
   * shared program, target and working directory, and warn when spawning or
   * waiting fails.
   */
  method RunUser(program: Path, location: Path, url: string, user: string, o: LaunchOutcome)
    returns (cmd: Command, lines: seq<LogLine>)
    ensures cmd == Invocation(program, location, url, user)
    ensures lines == PlayerLog(user, o)
  {
    lines := [Info(user)];
    cmd := Command(program, TrackerArgs(user, url), location);
    match Failure(o) {
      case Some(cause) => lines := lines + [Warn(RunFailed(user, cause))];
      case None =>
    }
  }

  /**
   * Starts the tracker once per player, in order, with the shared program,
   * target and working directory; a failed attempt is logged and the loop
   * goes on.
   */
  method LaunchAll(program: Path, location: Path, url: string, players: seq<string>, outcomes: nat -> LaunchOutcome)
    returns (launched: seq<Command>, log: seq<LogLine>)
    ensures |launched| == |players|
    ensures forall k :: 0 <= k < |players| ==> launched[k] == Invocation(program, location, url, players[k])
    ensures log == LaunchLog(players, outcomes)
  {
    launched, log := [], [];
    var k := 0;
    while k < |players|
      invariant k <= |players|
      invariant |launched| == k
      invariant forall j :: 0 <= j < k ==> launched[j] == Invocation(program, location, url, players[j])
      invariant log == LaunchLog(players[..k], outcomes)
    {
      var cmd, lines := RunUser(program, location, url, players[k], outcomes(k));
      LaunchLogStep(players, outcomes, k);
      log := log + lines;
      assert log == LaunchLog(players[..k + 1], outcomes);
      launched := launched + [cmd];
      k := k + 1;
    }
    assert players[..k] == players;
  }

  // ---------------------------------------------------------------------
  // A whole run

  /** How a run ends: normally, or by consuming an error with an exit code. */
  datatype RunOutcome = Finished | Terminated(code: int)

  /**
   * A whole run: resolve the arguments (ending through the error's exit
   * code if that fails), require the launcher executable under the
   * location, then launch every player. `resolved` is what argument
   * resolution produced.
   */
  method Run(config: ConfigFile, locationAnswer: Result<string>, portAnswer: Result<Port>, fs: FileSystem,
             parse: string -> ParseResult, sels: seq<Selection>, outcomes: nat -> LaunchOutcome)
    returns (outcome: RunOutcome, resolved: Result<Args>, launched: seq<Command>, log: seq<LogLine>)
    requires UserCooperates(config, locationAnswer, portAnswer, fs, parse, sels)
    ensures resolved == Resolution(config, locationAnswer, portAnswer, fs, parse, sels)
    ensures resolved.Err? ==>
      outcome == Terminated(ExitCode(resolved.error)) && launched == [] &&
      log == Warns(ResolutionLog(config, locationAnswer, portAnswer, fs, parse, sels)) + [ErrorLine(Message(resolved.error))]
    ensures resolved.Ok? && Join(resolved.value.location, LauncherName) !in fs ==>
      outcome == Terminated(5) && launched == [] &&
      log == Warns(ResolutionLog(config, locationAnswer, portAnswer, fs, parse, sels)) +
             [ErrorLine(Message(Validation(NoArchipelago)))]
    ensures resolved.Ok? && Join(resolved.value.location, LauncherName) in fs ==>
      var a := resolved.value;
      outcome == Finished && |launched| == |a.players| &&
      (forall k :: 0 <= k < |a.players| ==>
         launched[k] == Invocation(Join(a.location, LauncherName), a.location, Url(a.host, a.port), a.players[k])) &&
      log == Warns(ResolutionLog(config, locationAnswer, portAnswer, fs, parse, sels)) + LaunchLog(a.players, outcomes)
    ensures resolved.Ok? ==>
      var a := resolved.value;
      Some(a.location) == ChosenLocation(config, locationAnswer) &&
      (ConfigPort(config).Some? ==> a.port == ConfigPort(config).value) &&
      (ConfigPort(config).None? ==> portAnswer == Ok(a.port)) &&
      a.host == (if ConfigHost(config).Some? then ConfigHost(config).value else DefaultHost) &&
      |a.players| > 0
    ensures outcome.Terminated? ==> 1 <= outcome.code <= 5 && launched == []
  {
    var asked, warnings;
    resolved, asked, warnings := GetArgs(config, locationAnswer, portAnswer, fs, parse, sels);
    ResolvedArguments(config, locationAnswer, portAnswer, fs, parse, sels);
    log := Warns(warnings);
    if resolved.Err? {
      var t := Consume(resolved.error);
      return Terminated(t.code), resolved, [], log + [ErrorLine(t.errorLine)];
    }
    var a := resolved.value;

    var program := Join(a.location, LauncherName);
    if program !in fs {
      var t := Consume(Validation(NoArchipelago));
      return Terminated(t.code), resolved, [], log + [ErrorLine(t.errorLine)];
    }

    var url := Url(a.host, a.port);
    var more;
    launched, more := LaunchAll(program, a.location, url, a.players, outcomes);
    outcome := Finished;
    log := log + more;
  }
}
