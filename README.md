# UTracker Launcher, modelled in Dafny

The UTracker launcher starts the Archipelago "Universal Tracker" once per player. It works in three stages:

1. **Resolve the arguments.** It reads `config.toml` when the file exists. It prompts for a missing location or port. The host falls back to `archipelago.gg`.
2. **Discover the players.** It reads the `name` of every document in the `.yaml` files of `<location>/Players`, then lets the user pick players when there is more than one.
3. **Launch.** It checks that `ArchipelagoLauncher.exe` exists under the location. It builds one `host:port` target. It then runs `ArchipelagoLauncher.exe "Universal Tracker" -- --name <player> --connect <target>` once per player, with the location as working directory. A failed launch is logged and the other players still get their turn.

Errors end the process with an exit code per category.

This project models that core with the outside world made into values:

- The filesystem is a map from the paths that exist to what is there: a directory listing, or a node that cannot be listed. A regular file such as `ArchipelagoLauncher.exe` is such a node, since only its existence is checked.
- The configuration file, the prompts' answers and the launched processes' outcomes are inputs.
- The YAML loader is a function parameter.
- The log is a returned sequence of lines.

Modules follow the source files:

- `Errors` (`errors.dfy`) models `error.rs`.
- `Consts` (`consts.dfy`) copies the constants of `consts.rs`.
- `Environment` (`environment.dfy`) holds the abstract inputs and outputs.
- `Discovery` (`discovery.dfy`) models `find_players` in `args.rs`.
- `Args` (`args.dfy`) models `prompt_users` and `Args::get` in `args.rs`.
- `Launcher` (`launcher.dfy`) models `main.rs`.

Pure pipelines are functions with lemmas. The re-prompting loop, the config-over-prompt merge, the launch loop and the run itself are methods with loops and mutable locals, as in the source.

### Behaviour worth noting

- `find_players` returns an empty list rather than failing. `NoPlayers` is raised by `prompt_users`.
- A `name` may be any YAML string, including the empty one.
- A file contributes one name or one warning per document, not per file.
- Every leading BOM is stripped, then leading whitespace. A BOM after whitespace is kept (`NormaliseKeepsBomAfterWhitespace`).
- Each launch waits for its process. Launches run on a parallel pool, modelled here as a sequential loop.

## Model

| member | source | states |
|---|---|---|
| Errors.ExitCode | utracker_launcher/src/error.rs:34-40 | every error maps to a code in 1..5, never 0; the code is 5 exactly for validation errors, so `NoPlayerDir`, `NoPlayers` and `NoArchipelago` all exit with 5 |
| Errors.ExitCodeIdentifiesCategory | utracker_launcher/src/error.rs:34-40 | reading the code back gives the error's category (IO→1, Yaml→2, Prompt→3, Toml→4, Validation→5) |
| Errors.ExitCodesDistinct | utracker_launcher/src/error.rs:34-40 | two errors share an exit code if and only if they are in the same top-level category |
| Errors.ValidationMessage | utracker_launcher/src/error.rs:18-28 | each validation error is displayed with its own fixed text, naming the `Players` directory or `ArchipelagoLauncher.exe` where the source does, and that text reads back as the same error |
| Errors.Message | utracker_launcher/src/error.rs:4-16 | an error is displayed as its category's text followed by the cause (or the validation text); the message reads back as the very same error, so it identifies both category and cause |
| Errors.Consume | utracker_launcher/src/error.rs:30-42 | consuming an error yields exactly one error line, the error's message, and a non-zero exit code equal to its category's code |
| Discovery.LastIndexOf | utracker_launcher/src/args.rs:112-114 | the index found holds the character and no later index does; none is found only if the character never occurs |
| Discovery.YamlExtensionIff | utracker_launcher/src/args.rs:110-114 | a name has extension `yaml` exactly when it ends in `.yaml` after at least one other character (case-sensitive; `.yaml` alone has none) |
| Discovery.CandidatesMembership | utracker_launcher/src/args.rs:107-124 | a candidate is produced exactly for each readable entry that is a regular file with extension `yaml`, at `dir` joined with its name |
| Discovery.CandidatesAppend | utracker_launcher/src/args.rs:107-124 | filtering keeps listing order: candidates of a concatenated listing are the concatenation of the candidates |
| Discovery.IgnoredEntryChangesNothing | utracker_launcher/src/args.rs:107-124 | inserting a non-candidate entry (unreadable, not a regular file, other extension) anywhere changes neither names nor warnings |
| Discovery.StripBoms | utracker_launcher/src/args.rs:140 | the result is a suffix, everything removed is a BOM, and the result does not start with a BOM |
| Discovery.TrimStart | utracker_launcher/src/args.rs:140 | the result is a suffix, everything removed is whitespace, and the result does not start with whitespace |
| Discovery.NormaliseIsSuffix | utracker_launcher/src/args.rs:140 | the text given to the YAML loader is a suffix of the file's text |
| Discovery.NormaliseDropsBomsThenWhitespace | utracker_launcher/src/args.rs:140 | exactly a maximal run of BOMs, then a maximal run of whitespace, is removed |
| Discovery.NormaliseIgnoresBom | utracker_launcher/src/args.rs:140 | prepending a BOM does not change the normalised text |
| Discovery.NormaliseKeepsBomAfterWhitespace | utracker_launcher/src/args.rs:140 | a BOM that follows whitespace survives normalisation, so normalising is not idempotent |
| Discovery.DocNamesCounts | utracker_launcher/src/args.rs:151-162 | each document gives exactly one name or exactly one warning: as many names as documents whose `name` key holds a string, and one warning naming the file for each other document |
| Discovery.DocNamesMembership | utracker_launcher/src/args.rs:151-162 | a file's documents give a name exactly when one of them is a mapping whose `name` key holds that string |
| Discovery.ScanFileSpec | utracker_launcher/src/args.rs:128-162 | a read failure or a parse failure gives exactly one warning and no names; otherwise names plus warnings equal the number of documents |
| Discovery.ScanFileNames | utracker_launcher/src/args.rs:128-162 | a file yields a name exactly when it reads, its normalised text parses, and some document carries that name |
| Discovery.ScanFileIgnoresBom | utracker_launcher/src/args.rs:139-140 | a file whose text starts with a BOM scans exactly like the same text without it |
| Discovery.ScanAllAppend | utracker_launcher/src/args.rs:126-165 | scanning a concatenation of candidates is the concatenation of the scans, so one file's failure leaves the others' results untouched |
| Discovery.ScanAllAccounts | utracker_launcher/src/args.rs:126-165 | every document and every failing file is accounted for exactly once, as a name or as a warning |
| Discovery.ScanAllMembership | utracker_launcher/src/args.rs:126-165 | a name is found exactly when some candidate's own scan yields it |
| Discovery.DocNamesWarnings | utracker_launcher/src/args.rs:151-162 | every warning a file's documents give is the missing-name warning for that very file |
| Discovery.ScanAllWarnings | utracker_launcher/src/args.rs:126-165 | scanning the candidate files only ever warns that a file could not be read, could not be parsed, or has a nameless document |
| Discovery.FindPlayers | utracker_launcher/src/args.rs:102-168 | a missing directory is `NoPlayerDir` before anything is listed; an unlistable one is the listing's IO error; discovery fails only for a missing or unlistable directory, never because of a file |
| Discovery.FindPlayersMembership | utracker_launcher/src/args.rs:102-168 | for an existing, listable directory, a name is among `find_players`' result exactly when some candidate file of the directory reads, parses and holds a document naming it |
| Args.FirstDecisive | utracker_launcher/src/args.rs:86-98 | the answer that ends the loop is the first failed or non-empty selection; every earlier one is empty |
| Args.SelectPlayers | utracker_launcher/src/args.rs:86-98 | the prompt is shown once per empty answer plus once, each empty answer logs one warning; the result is the prompt's error, or a non-empty list with `players[i]` for each selected `i` in selection order |
| Args.PlayersOutcome | utracker_launcher/src/args.rs:80-100 | selecting players fails exactly when discovery fails, nothing is found, or (with two or more names) the decisive prompt fails; a successful result is non-empty and holds only discovered names |
| Args.PromptUsers | utracker_launcher/src/args.rs:80-100 | discovery errors propagate; zero names is `NoPlayers`; one name is returned as-is without prompting; with two or more, the result is the decisive prompt's error or `players[i]` for each selected `i`, in order, after one warning per empty answer; the result is always `PlayersOutcome`, the prompt is shown `PlayersShown` times and the warnings logged are `PlayersLog`: discovery's own warnings, then one per empty answer |
| Args.Resolution | utracker_launcher/src/args.rs:38-64 | once the configuration is usable and the location and port are settled, resolution succeeds exactly when selecting the players under `location/Players` does, and otherwise fails with that very error; with the players it gives the selection |
| Args.ConfigErrorsComeFirst | utracker_launcher/src/args.rs:43-48 | a configuration file that cannot be checked or read is an IO error, one that does not deserialize is a Toml error, and either ends resolution before any prompt and any warning |
| Args.PromptsFollowConfig | utracker_launcher/src/args.rs:50-60 | configured settings are never prompted for; an open location is asked first and its failure ends resolution with no other prompt or warning; an open port is asked once the location is known and its failure ends resolution before any player prompt or warning |
| Args.ResolvedArguments | utracker_launcher/src/args.rs:38-64 | resolved arguments take the location and port from the configuration or their prompts (the `Port` type excludes zero), the host from the configuration or `archipelago.gg`, and hold at least one player discovered under `location/Players` |
| Args.GetArgs | utracker_launcher/src/args.rs:38-64 | the result is exactly `Resolution`, the prompts shown are exactly `ResolutionPrompts` (open settings in order, stopping at the first failed one, then the player prompt as often as selection asks) and the warnings logged are exactly `ResolutionLog` (discovery's warnings and one per empty selection, none when resolution stops earlier); with the three lemmas above and `Resolution`'s contract this pins every path of `Args::get` |
| Args.ResolutionLogWarnings | utracker_launcher/src/args.rs:80-165 | resolution warns only about player files (unreadable, unparsable, nameless document) and empty selections, never about a launch |
| Args.PortFailureIgnoresSelections | utracker_launcher/src/args.rs:57-62 | once the location is known, a failed port prompt (with no configured port) ends resolution with that error and no player prompt, whatever selections the user would have made |
| Args.MissingPlayersDirIsFatal | utracker_launcher/src/args.rs:55-63 | with no configuration file, a missing `location/Players` ends resolution with `NoPlayerDir`, and so with exit code 5, whatever the port and the selections |
| Launcher.Decimal | utracker_launcher/src/main.rs:37 | the port text is non-empty, all digits, with no leading zero |
| Launcher.DecimalRoundTrip | utracker_launcher/src/main.rs:37 | reading the decimal text back gives the port |
| Launcher.Url | utracker_launcher/src/main.rs:37 | splitting the target at its last colon gives back the host verbatim, even a host that contains colons, and the port's decimal text |
| Launcher.UrlInjective | utracker_launcher/src/main.rs:37 | distinct host/port pairs give distinct targets |
| Launcher.TrackerArgs | utracker_launcher/src/main.rs:42-48 | the argument vector is recognised as a tracker invocation for that user and target |
| Launcher.ReadTrackerArgsExact | utracker_launcher/src/main.rs:42-48 | only `["Universal Tracker", "--", "--name", user, "--connect", url]` is recognised: the vector has exactly that shape |
| Launcher.Failure | utracker_launcher/src/main.rs:51-55 | an attempt fails exactly when spawning or waiting fails; both give the same kind of failure, and the exit status is not inspected |
| Launcher.LaunchLogWarnings | utracker_launcher/src/main.rs:39-57 | the launch log holds exactly one warning per failed attempt |
| Launcher.LaunchLogWarnsEveryFailure | utracker_launcher/src/main.rs:50-56 | every failed attempt puts a warning in the log naming that attempt's own player and cause |
| Launcher.LaunchLogBlamesFailedAttempt | utracker_launcher/src/main.rs:39-57 | every warning names a player whose own attempt failed, with that attempt's cause |
| Launcher.LaunchLogAnnouncesEveryPlayer | utracker_launcher/src/main.rs:39-57 | every player's attempt is logged, whatever the other attempts' outcomes |
| Launcher.RunUser | utracker_launcher/src/main.rs:40-57 | one attempt starts the launcher with the six-element tracker arguments in the location and logs exactly the announcement, then a warning with the cause when spawning or waiting fails |
| Launcher.LaunchAll | utracker_launcher/src/main.rs:39-57 | one attempt per player, in order, each with the same program, the same target, working directory `location` and the six-element argument vector; the log is the per-player log |
| Launcher.Run | utracker_launcher/src/main.rs:20-59 | a resolution error terminates with its code and no launch; a missing `location/ArchipelagoLauncher.exe` terminates with 5 and no launch; otherwise every player is launched with the single target built from the resolved host and port; the log is exactly the resolution's warnings followed by the error line or by the launch log, with nothing else in between; the resolved arguments are exactly `Resolution` of the inputs, and their location, port and host follow the config-over-prompt rules |
| Launcher.RunLogWarnings | utracker_launcher/src/main.rs:20-59 | a run that reaches the launch stage logs as many warnings as resolution logged plus one per failed attempt |
| Launcher.RunLogBlamesFailedAttempt | utracker_launcher/src/main.rs:20-59 | every launch-failure warning in such a run's whole log names a player whose own attempt failed, with that cause |

## Left out

- Terminal prompting (`dialoguer`): the location and port answers and the sequence of player selections are inputs. Prompt texts, the theme and the current-directory default of the location prompt are not modelled.
- Filesystem calls: existence checks, directory listing and file reading are the `FileSystem` map and the entries' read results. Path joining is an abstract constructor, not OS path semantics. `to_string_lossy` is not modelled.
- YAML and TOML parsing are foreign libraries. YAML is a function parameter from text to documents or an error. TOML deserialization is folded into the `ConfigFile` input, whose port type already rules out zero.
- YAML mappings keep only their string keys, since no other key can match the string key `name`.
- Parallelism (`rayon`): discovery and launching are sequential loops. The model fixes one order for warnings and launch attempts; the source does not promise any order for either.
- Process spawning and waiting: each attempt's outcome comes from an oracle indexed by the player's position.
- Logging colours and the ANSI detection: the log is a sequence of structured lines. The exact text of warnings is not modelled; error messages are.
- `consume`'s call to `exit`: it returns the error line and the exit code, and `Run` stops there.
- `Error::Yaml` is never raised by this code; it is kept only for the exit-code mapping.
- Args.SelectPlayers: requires that some answer is a failure or a non-empty selection, because the source loops forever otherwise. It also requires that selected indices lie within the list shown, which the prompt library guarantees. `Args.GetArgs`, `Launcher.Run` and the resolution functions ask the same of the selections only when location and port are settled, since otherwise no selection is read.
