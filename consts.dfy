/** Fixed names and values the launcher is built with. */
module Consts {
  const LauncherName: string := "ArchipelagoLauncher.exe"
  const TrackerArg: string := "Universal Tracker"
  const ConfigFileName: string := "config.toml"
  const DefaultHost: string := "archipelago.gg"
  const YamlExt: string := "yaml"
  const PlayersDir: string := "Players"
  /** The byte-order mark, U+FEFF. */
  const Bom: char := '\U{FEFF}'
}
