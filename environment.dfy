/**
 * Abstract stand-ins for everything the launcher reads from or does to the
 * outside world: the filesystem, the configuration file, the terminal
 * prompts, parsed YAML documents, spawned processes and the log.
 */
module Environment {
  import opened Errors

  /** A path: a root location, or a path joined with one more name. */
  datatype Path = Location(text: string) | Child(parent: Path, name: string)

  function Join(p: Path, name: string): Path {
    Child(p, name)
  }

  /** The result of reading a file's whole text. */
  datatype ReadResult = ReadFailed(cause: string) | Text(text: string)

  /**
   * One item yielded while listing a directory: either an entry that could
   * not be read, or an entry with its file name, whether its (unfollowed)
   * file type is known to be a regular file, and what reading it yields.
   */
  datatype DirEntry =
    | BadEntry(cause: string)
    | Entry(name: string, isFile: bool, contents: ReadResult)

  /**
   * What exists at a path: a listable directory, or something that cannot be
   * listed. A regular file, such as the launcher executable, is an
   * `Unlistable` node: only its existence is ever checked.
   */
  datatype Node = Dir(entries: seq<DirEntry>) | Unlistable(cause: string)

  /** The filesystem: a path exists exactly when it is a key. */
  type FileSystem = map<Path, Node>

  /** A YAML value. Mappings keep their string keys only: no other key can equal the string `name`. */
  datatype Yaml =
    | Str(s: string)
    | Int(i: int)
    | Real(repr: string)
    | Bool(b: bool)
    | Array(items: seq<Yaml>)
    | Mapping(fields: map<string, Yaml>)
    | Alias(id: nat)
    | Null
    | BadValue

  /** The YAML loader's verdict on a text: a syntax error, or the documents it holds. */
  datatype ParseResult = ParseError(cause: string) | Documents(docs: seq<Yaml>)

  /** A 16-bit port that is never zero. */
  newtype Port = x: int | 0 < x < 0x1_0000 witness 1

  /** The values a configuration file may set; each is optional. */
  datatype ConfigArgs = ConfigArgs(location: Option<string>, port: Option<Port>, host: Option<string>)

  /** Looking for, reading and deserializing the configuration file, `config.toml` in the working directory. */
  datatype ConfigFile =
    | ExistsFailed(cause: string)
    | NoConfig
    | ConfigReadFailed(cause: string)
    | ConfigInvalid(cause: string)
    | Config(args: ConfigArgs)

  /** One answer to the multi-select player prompt. */
  datatype Selection = SelectFailed(cause: string) | Selected(indices: seq<nat>)

  /** The prompts a run can show. */
  datatype Prompt = AskLocation | AskPort | AskPlayers

  /** The outcome of spawning one process and waiting for it. */
  datatype LaunchOutcome = SpawnFailed(cause: string) | WaitFailed(cause: string) | Exited(status: int)

  /** A process invocation: the program, its arguments and its working directory. */
  datatype Command = Command(program: Path, args: seq<string>, cwd: Path)

  /** Warnings the launcher logs and carries on after. */
  datatype Warning =
    | FileReadFailed(file: Path, cause: string)
    | FileParseFailed(file: Path, cause: string)
    | NoNameField(file: Path)
    | EmptySelection
    | RunFailed(user: string, cause: string)

  datatype LogLine = Info(user: string) | Warn(warning: Warning) | ErrorLine(message: string)

  function Warns(ws: seq<Warning>): (log: seq<LogLine>)
    ensures |log| == |ws|
    ensures forall k :: 0 <= k < |ws| ==> log[k] == Warn(ws[k])
  {
    if ws == [] then [] else [Warn(ws[0])] + Warns(ws[1..])
  }
}
