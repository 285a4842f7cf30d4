/**
 * Resolving the launcher's arguments: configuration-file values win over
 * prompts, the host is never prompted for, and the players come from the
 * `Players` directory under the resolved location, narrowed by the user
 * when there is more than one.
 */
module Args {
  import opened Consts
  import opened Errors
  import opened Environment
  import opened Discovery

  /** The resolved arguments of a run. */
  datatype Args = Args(location: Path, port: Port, host: string, players: seq<string>)

  // ---------------------------------------------------------------------
  // Selecting players

  /** An answer that ends the selection loop: a failed prompt or a non-empty selection. */
  predicate Decisive(s: Selection) {
    s.SelectFailed? || |s.indices| > 0
  }

  /** The user eventually gives a decisive answer. */
  predicate SomeDecisive(sels: seq<Selection>) {
    exists k :: 0 <= k < |sels| && Decisive(sels[k])
  }

  /** Every selected index names one of the `n` items shown, as the prompt guarantees. */
  predicate InRange(sels: seq<Selection>, n: nat) {
    forall k, j :: 0 <= k < |sels| && sels[k].Selected? && 0 <= j < |sels[k].indices| ==> sels[k].indices[j] < n
  }

  /** What the selection loop needs of the user when `n` players are offered. */
  predicate Cooperates(sels: seq<Selection>, n: nat) {
    n >= 2 ==> SomeDecisive(sels) && InRange(sels, n)
  }

  /** The position of the answer that ends the selection loop. */
  function FirstDecisive(sels: seq<Selection>): (k: nat)
    requires SomeDecisive(sels)
    ensures k < |sels| && Decisive(sels[k])
    ensures forall j :: 0 <= j < k ==> !Decisive(sels[j])
  {
    if Decisive(sels[0]) then 0
    else
      assert SomeDecisive(sels[1..]) by {
        var k :| 0 <= k < |sels| && Decisive(sels[k]);
        assert sels[1..][k - 1] == sels[k];
      }
      1 + FirstDecisive(sels[1..])
  }

  /** The players at the selected positions, in selection order. */
  function Pick(players: seq<string>, indices: seq<nat>): seq<string>
    requires forall j :: 0 <= j < |indices| ==> indices[j] < |players|
  {
    seq(|indices|, j requires 0 <= j < |indices| => players[indices[j]])
  }

  /**
   * The re-prompting loop: empty selections are warned about and asked
   * again; the first decisive answer ends it, with the selected players in
   * selection order or with the prompt's error.
   */
  method SelectPlayers(players: seq<string>, sels: seq<Selection>) returns (r: Result<seq<string>>, shown: nat, log: seq<Warning>)
    requires |players| >= 2
    requires SomeDecisive(sels) && InRange(sels, |players|)
    ensures var k := FirstDecisive(sels);
      shown == k + 1 && log == seq(k, _ => EmptySelection) &&
      (sels[k].SelectFailed? ==> r == Err(Prompt(sels[k].cause))) &&
      (sels[k].Selected? ==>
         r.Ok? && |r.value| == |sels[k].indices| &&
         forall j :: 0 <= j < |r.value| ==> r.value[j] == players[sels[k].indices[j]])
    ensures r.Ok? ==> |r.value| > 0 && forall n :: n in r.value ==> n in players
  {
    ghost var k := FirstDecisive(sels);
    var i := 0;
    log := [];
    while true
      invariant i <= k
      invariant log == seq(i, _ => EmptySelection)
      decreases k - i
    {
      var res := sels[i];
      if res.SelectFailed? {
        return Err(Prompt(res.cause)), i + 1, log;
      }
      if |res.indices| == 0 {
        log := log + [EmptySelection];
        i := i + 1;
        continue;
      }
      return Ok(Pick(players, res.indices)), i + 1, log;
    }
  }

  /** How many players discovery finds under `dir`; zero when it fails. */
  function DiscoveredCount(dir: Path, fs: FileSystem, parse: string -> ParseResult): nat {
    match FindPlayers(dir, fs, parse)
    case Ok(sc) => |sc.names|
    case Err(_) => 0
  }

  /**
   * What selecting the players under `dir` comes to: the discovery error,
   * `NoPlayers` when none is found, the single player without a prompt, or
   * else the first decisive answer, as the prompt's error or the selected
   * players.
   */
  function PlayersOutcome(dir: Path, fs: FileSystem, parse: string -> ParseResult, sels: seq<Selection>): (r: Result<seq<string>>)
    requires Cooperates(sels, DiscoveredCount(dir, fs, parse))
    ensures r.Ok? ==>
      FindPlayers(dir, fs, parse).Ok? && |r.value| > 0 &&
      forall n :: n in r.value ==> n in FindPlayers(dir, fs, parse).value.names
    ensures r.Err? <==>
      FindPlayers(dir, fs, parse).Err? ||
      |FindPlayers(dir, fs, parse).value.names| == 0 ||
      (|FindPlayers(dir, fs, parse).value.names| >= 2 && sels[FirstDecisive(sels)].SelectFailed?)
  {
    match FindPlayers(dir, fs, parse)
    case Err(e) => Err(e)
    case Ok(sc) =>
      if |sc.names| == 0 then Err(Validation(NoPlayers))
      else if |sc.names| == 1 then Ok(sc.names)
      else
        var s := sels[FirstDecisive(sels)];
        if s.SelectFailed? then Err(Prompt(s.cause)) else Ok(Pick(sc.names, s.indices))
  }

  /** How many times the player prompt is shown under `dir`: only when two or more players are found. */
  function PlayersShown(dir: Path, fs: FileSystem, parse: string -> ParseResult, sels: seq<Selection>): nat
    requires Cooperates(sels, DiscoveredCount(dir, fs, parse))
  {
    if DiscoveredCount(dir, fs, parse) >= 2 then FirstDecisive(sels) + 1 else 0
  }

  /**
   * The warnings selecting the players under `dir` logs: none when discovery
   * fails, else discovery's own warnings, followed by one per empty answer
   * when the user is asked.
   */
  function PlayersLog(dir: Path, fs: FileSystem, parse: string -> ParseResult, sels: seq<Selection>): seq<Warning>
    requires Cooperates(sels, DiscoveredCount(dir, fs, parse))
  {
    match FindPlayers(dir, fs, parse)
    case Err(_) => []
    case Ok(sc) => sc.warnings + if |sc.names| >= 2 then seq(FirstDecisive(sels), _ => EmptySelection) else []
  }

  /**
   * Discovers the players under `dir`, fails with `NoPlayers` when there are
   * none, returns a single player without prompting, and otherwise lets the
   * user select.
   */
  method PromptUsers(dir: Path, fs: FileSystem, parse: string -> ParseResult, sels: seq<Selection>)
    returns (r: Result<seq<string>>, shown: nat, log: seq<Warning>)
    requires Cooperates(sels, DiscoveredCount(dir, fs, parse))
    ensures FindPlayers(dir, fs, parse).Err? ==> r == Err(FindPlayers(dir, fs, parse).error) && shown == 0 && log == []
    ensures FindPlayers(dir, fs, parse).Ok? ==>
      var sc := FindPlayers(dir, fs, parse).value;
      (|sc.names| == 0 ==> r == Err(Validation(NoPlayers)) && shown == 0 && log == sc.warnings) &&
      (|sc.names| == 1 ==> r == Ok(sc.names) && shown == 0 && log == sc.warnings) &&
      (|sc.names| >= 2 ==>
         var k := FirstDecisive(sels);
         shown == k + 1 &&
         log == sc.warnings + seq(k, _ => EmptySelection) &&
         (sels[k].SelectFailed? ==> r == Err(Prompt(sels[k].cause))) &&
         (sels[k].Selected? ==>
            r.Ok? && |r.value| == |sels[k].indices| &&
            forall j :: 0 <= j < |r.value| ==> r.value[j] == sc.names[sels[k].indices[j]]))
    ensures r.Ok? ==>
      |r.value| > 0 && forall n :: n in r.value ==> n in FindPlayers(dir, fs, parse).value.names
    ensures r == PlayersOutcome(dir, fs, parse, sels)
    ensures shown == PlayersShown(dir, fs, parse, sels) && log == PlayersLog(dir, fs, parse, sels)
  {
    var found := FindPlayers(dir, fs, parse);
    if found.Err? {
      return Err(found.error), 0, [];
    }
    var players := found.value.names;
    if |players| == 0 {
      return Err(Validation(NoPlayers)), 0, found.value.warnings;
    } else if |players| == 1 {
      return Ok(players), 0, found.value.warnings;
    }
    var more;
    r, shown, more := SelectPlayers(players, sels);
    log := found.value.warnings + more;
    ghost var k := FirstDecisive(sels);
    if sels[k].Selected? {
      assert r.value == Pick(players, sels[k].indices);
    }
  }

  // ---------------------------------------------------------------------
  // Resolving every argument

  /** The configuration file's value for each setting, when the file was read. */
  function ConfigLocation(config: ConfigFile): Option<string> {
    if config.Config? then config.args.location else None
  }

  function ConfigPort(config: ConfigFile): Option<Port> {
    if config.Config? then config.args.port else None
  }

  function ConfigHost(config: ConfigFile): Option<string> {
    if config.Config? then config.args.host else None
  }

  /** The configuration file is absent or was read and deserialized. */
  predicate ConfigUsable(config: ConfigFile) {
    config.NoConfig? || config.Config?
  }

  /** The location the run uses, once the configuration and the location prompt are settled. */
  function ChosenLocation(config: ConfigFile, locationAnswer: Result<string>): Option<Path> {
    if !ConfigUsable(config) then None
    else if ConfigLocation(config).Some? then Some(Location(ConfigLocation(config).value))
    else if locationAnswer.Ok? then Some(Location(locationAnswer.value))
    else None
  }

  /**
   * The user cooperates with whatever the players directory of the chosen
   * location holds, once location and port are settled; when either fails,
   * no selection is ever read and nothing is asked of the user.
   */
  predicate UserCooperates(config: ConfigFile, locationAnswer: Result<string>, portAnswer: Result<Port>, fs: FileSystem,
                           parse: string -> ParseResult, sels: seq<Selection>) {
    Settled(config, locationAnswer, portAnswer) ==>
      Cooperates(sels, DiscoveredCount(Join(ChosenLocation(config, locationAnswer).value, PlayersDir), fs, parse))
  }

  /**
   * What resolving the arguments comes to. A configuration file that cannot
   * be checked, read or deserialized is an error before anything else; then
   * the location prompt's error, then the port prompt's error, each only
   * when the configuration leaves that setting open; then whatever
   * selecting the players under `location/Players` gives.
   */
  function Resolution(config: ConfigFile, locationAnswer: Result<string>, portAnswer: Result<Port>,
                      fs: FileSystem, parse: string -> ParseResult, sels: seq<Selection>): (r: Result<Args>)
    requires UserCooperates(config, locationAnswer, portAnswer, fs, parse, sels)
    ensures r.Ok? <==>
      ChosenLocation(config, locationAnswer).Some? && (ConfigPort(config).Some? || portAnswer.Ok?) &&
      PlayersOutcome(Join(ChosenLocation(config, locationAnswer).value, PlayersDir), fs, parse, sels).Ok?
    ensures ChosenLocation(config, locationAnswer).Some? && (ConfigPort(config).Some? || portAnswer.Ok?) ==>
      var players := PlayersOutcome(Join(ChosenLocation(config, locationAnswer).value, PlayersDir), fs, parse, sels);
      (players.Err? ==> r == Err(players.error)) &&
      (players.Ok? ==> r.value.players == players.value)
  {
    match config
    case ExistsFailed(cause) => Err(IO(cause))
    case ConfigReadFailed(cause) => Err(IO(cause))
    case ConfigInvalid(cause) => Err(Toml(cause))
    case _ =>
      if ConfigLocation(config).None? && locationAnswer.Err? then Err(locationAnswer.error)
      else if ConfigPort(config).None? && portAnswer.Err? then Err(portAnswer.error)
      else
        var location := ChosenLocation(config, locationAnswer).value;
        var port := if ConfigPort(config).Some? then ConfigPort(config).value else portAnswer.value;
        var host := if ConfigHost(config).Some? then ConfigHost(config).value else DefaultHost;
        match PlayersOutcome(Join(location, PlayersDir), fs, parse, sels)
        case Err(e) => Err(e)
        case Ok(players) => Ok(Args(location, port, host, players))
  }

  /** Whether the location and the port are settled, by the configuration or by their prompts. */
  predicate Settled(config: ConfigFile, locationAnswer: Result<string>, portAnswer: Result<Port>) {
    ChosenLocation(config, locationAnswer).Some? && (ConfigPort(config).Some? || portAnswer.Ok?)
  }

  /** The prompts for the settings the configuration leaves open, location first. */
  function SettingPrompts(config: ConfigFile): seq<Prompt> {
    (if ConfigLocation(config).None? then [AskLocation] else []) + (if ConfigPort(config).None? then [AskPort] else [])
  }

  /**
   * The prompts resolving the arguments shows, in order: none when the
   * configuration file fails; the location prompt, then the port prompt, for
   * each setting the configuration leaves open, stopping at the first failed
   * one; then the player prompt, as often as selection asks.
   */
  function ResolutionPrompts(config: ConfigFile, locationAnswer: Result<string>, portAnswer: Result<Port>,
                             fs: FileSystem, parse: string -> ParseResult, sels: seq<Selection>): seq<Prompt>
    requires UserCooperates(config, locationAnswer, portAnswer, fs, parse, sels)
  {
    if !ConfigUsable(config) then []
    else if ChosenLocation(config, locationAnswer).None? then [AskLocation]
    else if !Settled(config, locationAnswer, portAnswer) then SettingPrompts(config)
    else
      var dir := Join(ChosenLocation(config, locationAnswer).value, PlayersDir);
      SettingPrompts(config) + seq(PlayersShown(dir, fs, parse, sels), _ => AskPlayers)
  }

  /** The warnings resolving the arguments logs: only player selection logs any. */
  function ResolutionLog(config: ConfigFile, locationAnswer: Result<string>, portAnswer: Result<Port>,
                         fs: FileSystem, parse: string -> ParseResult, sels: seq<Selection>): seq<Warning>
    requires UserCooperates(config, locationAnswer, portAnswer, fs, parse, sels)
  {
    if Settled(config, locationAnswer, portAnswer)
    then PlayersLog(Join(ChosenLocation(config, locationAnswer).value, PlayersDir), fs, parse, sels)
    else []
  }

  /** Once location and port are settled, the prompts and warnings are those of player selection. */
  lemma SettledResolution(config: ConfigFile, locationAnswer: Result<string>, portAnswer: Result<Port>,
                          fs: FileSystem, parse: string -> ParseResult, sels: seq<Selection>)
    requires UserCooperates(config, locationAnswer, portAnswer, fs, parse, sels) && Settled(config, locationAnswer, portAnswer)
    ensures var dir := Join(ChosenLocation(config, locationAnswer).value, PlayersDir);
      ResolutionPrompts(config, locationAnswer, portAnswer, fs, parse, sels) ==
        SettingPrompts(config) + seq(PlayersShown(dir, fs, parse, sels), _ => AskPlayers) &&
      ResolutionLog(config, locationAnswer, portAnswer, fs, parse, sels) == PlayersLog(dir, fs, parse, sels)
  {
  }

  /** A configuration file that cannot be checked, read or deserialized ends resolution before any prompt. */
  lemma ConfigErrorsComeFirst(config: ConfigFile, locationAnswer: Result<string>, portAnswer: Result<Port>,
                              fs: FileSystem, parse: string -> ParseResult, sels: seq<Selection>)
    requires UserCooperates(config, locationAnswer, portAnswer, fs, parse, sels)
    ensures config.ExistsFailed? || config.ConfigReadFailed? ==>
      Resolution(config, locationAnswer, portAnswer, fs, parse, sels) == Err(IO(config.cause))
    ensures config.ConfigInvalid? ==>
      Resolution(config, locationAnswer, portAnswer, fs, parse, sels) == Err(Toml(config.cause))
    ensures !ConfigUsable(config) ==>
      ResolutionPrompts(config, locationAnswer, portAnswer, fs, parse, sels) == [] &&
      ResolutionLog(config, locationAnswer, portAnswer, fs, parse, sels) == []
  {
  }

  /**
   * Configured settings are never prompted for; an open location is asked
   * first, and its failure ends resolution; an open port is asked once the
   * location is known, and its failure ends resolution before any player
   * prompt.
   */
  lemma PromptsFollowConfig(config: ConfigFile, locationAnswer: Result<string>, portAnswer: Result<Port>,
                            fs: FileSystem, parse: string -> ParseResult, sels: seq<Selection>)
    requires UserCooperates(config, locationAnswer, portAnswer, fs, parse, sels)
    ensures var asked := ResolutionPrompts(config, locationAnswer, portAnswer, fs, parse, sels);
      (ConfigLocation(config).Some? ==> AskLocation !in asked) &&
      (ConfigPort(config).Some? ==> AskPort !in asked)
    ensures var asked := ResolutionPrompts(config, locationAnswer, portAnswer, fs, parse, sels);
      ConfigUsable(config) && ConfigLocation(config).None? ==>
        |asked| > 0 && asked[0] == AskLocation &&
        (locationAnswer.Err? ==>
           Resolution(config, locationAnswer, portAnswer, fs, parse, sels) == Err(locationAnswer.error) &&
           asked == [AskLocation] && ResolutionLog(config, locationAnswer, portAnswer, fs, parse, sels) == [])
    ensures var asked := ResolutionPrompts(config, locationAnswer, portAnswer, fs, parse, sels);
      ConfigPort(config).None? && ChosenLocation(config, locationAnswer).Some? ==>
        AskPort in asked &&
        (portAnswer.Err? ==>
           Resolution(config, locationAnswer, portAnswer, fs, parse, sels) == Err(portAnswer.error) &&
           AskPlayers !in asked && ResolutionLog(config, locationAnswer, portAnswer, fs, parse, sels) == [])
  {
    var asked := ResolutionPrompts(config, locationAnswer, portAnswer, fs, parse, sels);
    if ChosenLocation(config, locationAnswer).Some? && Settled(config, locationAnswer, portAnswer) {
      SettledResolution(config, locationAnswer, portAnswer, fs, parse, sels);
      var dir := Join(ChosenLocation(config, locationAnswer).value, PlayersDir);
      var players := seq(PlayersShown(dir, fs, parse, sels), _ => AskPlayers);
      assert asked == SettingPrompts(config) + players;
      assert AskLocation !in players && AskPort !in players;
      if ConfigLocation(config).None? {
        assert asked[0] == SettingPrompts(config)[0];
      }
      if ConfigPort(config).None? {
        assert AskPort in SettingPrompts(config);
      }
    }
  }

  /**
   * Resolved arguments follow the config-over-prompt rules: the location and
   * port from the configuration or their prompts, the host from the
   * configuration or the default, and at least one discovered player.
   */
  lemma ResolvedArguments(config: ConfigFile, locationAnswer: Result<string>, portAnswer: Result<Port>,
                          fs: FileSystem, parse: string -> ParseResult, sels: seq<Selection>)
    requires UserCooperates(config, locationAnswer, portAnswer, fs, parse, sels)
    ensures var r := Resolution(config, locationAnswer, portAnswer, fs, parse, sels);
      r.Ok? ==>
        ConfigUsable(config) &&
        Some(r.value.location) == ChosenLocation(config, locationAnswer) &&
        (ConfigPort(config).Some? ==> r.value.port == ConfigPort(config).value) &&
        (ConfigPort(config).None? ==> portAnswer == Ok(r.value.port)) &&
        r.value.host == (if ConfigHost(config).Some? then ConfigHost(config).value else DefaultHost) &&
        var found := FindPlayers(Join(r.value.location, PlayersDir), fs, parse);
        found.Ok? && |r.value.players| > 0 && forall n :: n in r.value.players ==> n in found.value.names
  {
  }

  /**
   * Resolves the arguments. The configuration file, when present, sets
   * location, port and host; a missing location or port is prompted for, in
   * that order; the host falls back to the default; the players are then
   * discovered and selected under `location/Players`.
   */
  method GetArgs(config: ConfigFile, locationAnswer: Result<string>, portAnswer: Result<Port>,
                 fs: FileSystem, parse: string -> ParseResult, sels: seq<Selection>)
    returns (r: Result<Args>, asked: seq<Prompt>, log: seq<Warning>)
    requires UserCooperates(config, locationAnswer, portAnswer, fs, parse, sels)
    ensures r == Resolution(config, locationAnswer, portAnswer, fs, parse, sels)
    ensures asked == ResolutionPrompts(config, locationAnswer, portAnswer, fs, parse, sels)
    ensures log == ResolutionLog(config, locationAnswer, portAnswer, fs, parse, sels)
  {
    var location: Option<string> := None;
    var port: Option<Port> := None;
    var host: Option<string> := None;
    asked, log := [], [];

    match config {
      case ExistsFailed(cause) => return Err(IO(cause)), asked, log;
      case ConfigReadFailed(cause) => return Err(IO(cause)), asked, log;
      case ConfigInvalid(cause) => return Err(Toml(cause)), asked, log;
      case NoConfig =>
      case Config(values) =>
        location := values.location;
        port := values.port;
        host := values.host;
    }

    var loc: Path;
    match location {
      case Some(val) => loc := Location(val);
      case None =>
        asked := asked + [AskLocation];
        if locationAnswer.Err? {
          return Err(locationAnswer.error), asked, log;
        }
        loc := Location(locationAnswer.value);
    }

    var p: Port;
    match port {
      case Some(val) => p := val;
      case None =>
        asked := asked + [AskPort];
        if portAnswer.Err? {
          return Err(portAnswer.error), asked, log;
        }
        p := portAnswer.value;
    }

    var h := if host.Some? then host.value else DefaultHost;
    assert Settled(config, locationAnswer, portAnswer) && Some(loc) == ChosenLocation(config, locationAnswer);
    assert asked == SettingPrompts(config);
    SettledResolution(config, locationAnswer, portAnswer, fs, parse, sels);

    var players, shown;
    players, shown, log := PromptUsers(Join(loc, PlayersDir), fs, parse, sels);
    asked := asked + seq(shown, _ => AskPlayers);
    if players.Err? {
      return Err(players.error), asked, log;
    }
    r := Ok(Args(loc, p, h, players.value));
  }

  /**
   * With no configuration file, a location whose `Players` directory is
   * missing ends resolution with `NoPlayerDir`, whatever the port and the
   * selections, and so with exit code 5.
   */
  lemma MissingPlayersDirIsFatal(location: string, port: Port, fs: FileSystem, parse: string -> ParseResult, sels: seq<Selection>)
    requires Join(Location(location), PlayersDir) !in fs
    ensures Resolution(NoConfig, Ok(location), Ok(port), fs, parse, sels) == Err(Validation(NoPlayerDir))
    ensures ExitCode(Resolution(NoConfig, Ok(location), Ok(port), fs, parse, sels).error) == 5
  {
    assert DiscoveredCount(Join(Location(location), PlayersDir), fs, parse) == 0;
  }

  /** Resolving the arguments warns only about player files and empty selections, never about a launch. */
  lemma ResolutionLogWarnings(config: ConfigFile, locationAnswer: Result<string>, portAnswer: Result<Port>,
                              fs: FileSystem, parse: string -> ParseResult, sels: seq<Selection>)
    requires UserCooperates(config, locationAnswer, portAnswer, fs, parse, sels)
    ensures forall w :: w in ResolutionLog(config, locationAnswer, portAnswer, fs, parse, sels) ==>
      FileWarning(w) || w == EmptySelection
  {
    if Settled(config, locationAnswer, portAnswer) {
      var dir := Join(ChosenLocation(config, locationAnswer).value, PlayersDir);
      if dir in fs && fs[dir].Dir? {
        ScanAllWarnings(Candidates(dir, fs[dir].entries), parse);
      }
    }
  }

  /**
   * A failed port prompt ends resolution with its own error before any
   * player is asked for, so it holds whatever selections the user would
   * have made, even none.
   */
  lemma PortFailureIgnoresSelections(config: ConfigFile, locationAnswer: Result<string>, portAnswer: Result<Port>,
                                     fs: FileSystem, parse: string -> ParseResult, sels: seq<Selection>)
    requires ChosenLocation(config, locationAnswer).Some? && ConfigPort(config).None? && portAnswer.Err?
    ensures UserCooperates(config, locationAnswer, portAnswer, fs, parse, sels)
    ensures Resolution(config, locationAnswer, portAnswer, fs, parse, sels) == Err(portAnswer.error)
    ensures AskPlayers !in ResolutionPrompts(config, locationAnswer, portAnswer, fs, parse, sels)
  {
  }
}
