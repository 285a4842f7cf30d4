/**
 * The launcher's error taxonomy and the process exit code each top-level
 * category maps to when an error is consumed.
 */
module Errors {
  import opened Consts

  /** Setup problems detected by the launcher itself. */
  datatype ValidationError = NoPlayerDir | NoPlayers | NoArchipelago

  /**
   * Top-level errors. The payloads of the foreign errors (I/O, YAML, prompt,
   * TOML) are kept only as their rendered text.
   */
  datatype Error =
    | IO(cause: string)
    | Yaml(cause: string)
    | Prompt(cause: string)
    | Toml(cause: string)
    | Validation(reason: ValidationError)

  datatype Result<T> = Ok(value: T) | Err(error: Error)

  datatype Option<T> = None | Some(value: T)

  /** The five top-level categories, without payloads. */
  datatype Category = IOCategory | YamlCategory | PromptCategory | TomlCategory | ValidationCategory

  function CategoryOf(e: Error): Category {
    match e
    case IO(_) => IOCategory
    case Yaml(_) => YamlCategory
    case Prompt(_) => PromptCategory
    case Toml(_) => TomlCategory
    case Validation(_) => ValidationCategory
  }

  /** The exit code the process ends with when `e` is consumed. */
  function ExitCode(e: Error): (code: int)
    ensures 1 <= code <= 5
    ensures code == 5 <==> e.Validation?
  {
    match e
    case IO(_) => 1
    case Yaml(_) => 2
    case Prompt(_) => 3
    case Toml(_) => 4
    case Validation(_) => 5
  }

  /** Reads a category back from an exit code; the partner of ExitCode. */
  function CategoryOfCode(code: int): (c: Category)
    requires 1 <= code <= 5
  {
    if code == 1 then IOCategory
    else if code == 2 then YamlCategory
    else if code == 3 then PromptCategory
    else if code == 4 then TomlCategory
    else ValidationCategory
  }

  /** The exit code determines the category, so codes are distinct across categories. */
  lemma ExitCodeIdentifiesCategory(e: Error)
    ensures CategoryOfCode(ExitCode(e)) == CategoryOf(e)
  {
  }

  lemma ExitCodesDistinct(e1: Error, e2: Error)
    ensures ExitCode(e1) == ExitCode(e2) <==> CategoryOf(e1) == CategoryOf(e2)
  {
    ExitCodeIdentifiesCategory(e1);
    ExitCodeIdentifiesCategory(e2);
  }

  // The texts errors are displayed with.
  const IOPrefix := "Failed an I/O call: "
  const YamlPrefix := "Failed to deserialize a .yaml file: "
  const PromptPrefix := "Failed to prompt user for value: "
  const TomlPrefix := "Failed to deserialize the config file: "
  const ValidationPrefix := "Something is wrong with your setup: "

  const NoPlayerDirText := "Could not find a '" + PlayersDir + "' directory"
  const NoPlayersText := "Found no players, please make sure at least one player is present"
  const NoArchipelagoText := "Could not find the " + LauncherName + " file"

  /** The rest of `m` after the prefix `p`, when `m` starts with `p`. */
  function StripPrefix(p: string, m: string): Option<string> {
    if |p| <= |m| && m[..|p|] == p then Some(m[|p|..]) else None
  }

  /** Reads a validation message back; the partner of ValidationMessage. */
  function ParseValidationMessage(m: string): Option<ValidationError> {
    if m == NoPlayerDirText then Some(NoPlayerDir)
    else if m == NoPlayersText then Some(NoPlayers)
    else if m == NoArchipelagoText then Some(NoArchipelago)
    else None
  }

  /** Reads an error message back into the error; the partner of Message. */
  function ParseMessage(m: string): Option<Error> {
    if StripPrefix(IOPrefix, m).Some? then Some(IO(StripPrefix(IOPrefix, m).value))
    else if StripPrefix(YamlPrefix, m).Some? then Some(Yaml(StripPrefix(YamlPrefix, m).value))
    else if StripPrefix(PromptPrefix, m).Some? then Some(Prompt(StripPrefix(PromptPrefix, m).value))
    else if StripPrefix(TomlPrefix, m).Some? then Some(Toml(StripPrefix(TomlPrefix, m).value))
    else if StripPrefix(ValidationPrefix, m).Some? then
      match ParseValidationMessage(StripPrefix(ValidationPrefix, m).value)
      case Some(v) => Some(Validation(v))
      case None => None
    else None
  }

  /** A prefix is recognised in front of any rest. */
  lemma StripOwnPrefix(p: string, rest: string)
    ensures StripPrefix(p, p + rest) == Some(rest)
  {
    assert (p + rest)[..|p|] == p;
    assert (p + rest)[|p|..] == rest;
  }

  /** A text starting with `p` does not start with a `q` that differs from `p` at position `k`. */
  lemma StripOtherPrefix(p: string, q: string, rest: string, k: nat)
    requires k < |p| && k < |q| && p[k] != q[k]
    ensures StripPrefix(q, p + rest).None?
  {
    var m := p + rest;
    if |q| <= |m| {
      assert m[..|q|][k] == p[k];
    }
  }

  /** The message a validation error is displayed with; it reads back as that error. */
  function ValidationMessage(v: ValidationError): (m: string)
    ensures ParseValidationMessage(m) == Some(v)
  {
    assert |NoPlayerDirText| == 36 && |NoPlayersText| == 65 && |NoArchipelagoText| == 47;
    match v
    case NoPlayerDir => NoPlayerDirText
    case NoPlayers => NoPlayersText
    case NoArchipelago => NoArchipelagoText
  }

  /**
   * The one-line message an error is displayed with: the category's text,
   * then the cause. It reads back as the very same error, so the message
   * identifies both the category and the cause.
   */
  function Message(e: Error): (m: string)
    ensures ParseMessage(m) == Some(e)
  {
    match e
    case IO(c) =>
      StripOwnPrefix(IOPrefix, c);
      IOPrefix + c
    case Yaml(c) =>
      StripOtherPrefix(YamlPrefix, IOPrefix, c, 7);
      StripOwnPrefix(YamlPrefix, c);
      YamlPrefix + c
    case Prompt(c) =>
      StripOtherPrefix(PromptPrefix, IOPrefix, c, 7);
      StripOtherPrefix(PromptPrefix, YamlPrefix, c, 10);
      StripOwnPrefix(PromptPrefix, c);
      PromptPrefix + c
    case Toml(c) =>
      StripOtherPrefix(TomlPrefix, IOPrefix, c, 7);
      StripOtherPrefix(TomlPrefix, YamlPrefix, c, 22);
      StripOtherPrefix(TomlPrefix, PromptPrefix, c, 10);
      StripOwnPrefix(TomlPrefix, c);
      TomlPrefix + c
    case Validation(v) =>
      var text := ValidationMessage(v);
      StripOtherPrefix(ValidationPrefix, IOPrefix, text, 0);
      StripOtherPrefix(ValidationPrefix, YamlPrefix, text, 0);
      StripOtherPrefix(ValidationPrefix, PromptPrefix, text, 0);
      StripOtherPrefix(ValidationPrefix, TomlPrefix, text, 0);
      StripOwnPrefix(ValidationPrefix, text);
      ValidationPrefix + text
  }

  /** How consuming an error ends the process: one error line, then an exit code. */
  datatype Termination = Termination(errorLine: string, code: int)

  function Consume(e: Error): (t: Termination)
    ensures t.code != 0 && t.code == ExitCode(e)
    ensures t.errorLine == Message(e)
  {
    Termination(Message(e), ExitCode(e))
  }
}
