/** The tool's own settings (`src/config.rs`): the default configuration, where
    the settings file lives, and how the log-level string maps to a level.
    Reading and writing the TOML file are not part of this model. */
module Configuration {
  import opened Results
  import opened Paths

  datatype Level = Trace | Debug | Info | Warn | Error

  datatype Config = Config(shell: Option<string>, aliasesPath: Option<Path>, logLevel: string)

  /** Log level used when the settings name none: the name of the `Error` level. */
  function DefaultLogLevel(): (s: string)
    ensures s == LevelName(Error)
    ensures TracingLevel(Config(None, None, s)) == Error
  {
    "error"
  }

  /** No shell override, no custom alias-store path, and the default log level. */
  function Default(): (c: Config)
    ensures c.shell.None? && c.aliasesPath.None?
    ensures c.logLevel == LevelName(Error)
    ensures TracingLevel(c) == Error
  {
    Config(None, None, DefaultLogLevel())
  }

  /** ASCII lower-casing of one character. */
  function LowerChar(c: char): char {
    if 'A' <= c <= 'Z' then (c as int + 32) as char else c
  }

  /** ASCII lower-casing of a string, character by character. */
  function Lower(s: string): (r: string)
    ensures |r| == |s|
    ensures forall i :: 0 <= i < |s| ==> r[i] == LowerChar(s[i])
    decreases |s|
  {
    if s == [] then [] else [LowerChar(s[0])] + Lower(s[1..])
  }

  /** Lower-casing twice changes nothing more. */
  lemma LowerIdempotent(s: string)
    ensures Lower(Lower(s)) == Lower(s)
  {
  }

  /** The level string of each level, as documented for the settings file. */
  function LevelName(level: Level): string {
    match level
    case Trace => "trace"
    case Debug => "debug"
    case Info => "info"
    case Warn => "warn"
    case Error => "error"
  }

  /** The four lower-case names select their level; anything else, `"error"` and
      the empty string included, selects `Error`. */
  function TracingLevel(c: Config): (level: Level)
    ensures level != Error ==> Lower(c.logLevel) == LevelName(level)
    ensures Lower(c.logLevel) == LevelName(Trace) ==> level == Trace
    ensures Lower(c.logLevel) == LevelName(Debug) ==> level == Debug
    ensures Lower(c.logLevel) == LevelName(Info) ==> level == Info
    ensures Lower(c.logLevel) == LevelName(Warn) ==> level == Warn
  {
    match Lower(c.logLevel)
    case "trace" => Trace
    case "debug" => Debug
    case "info" => Info
    case "warn" => Warn
    case _ => Error
  }

  /** Every level's name reads back as that level, in any letter case. */
  lemma LevelNameRoundTrip(level: Level, c: Config)
    requires Lower(c.logLevel) == LevelName(level)
    ensures TracingLevel(c) == level
  {
  }

  /** The level depends on the lower-cased string only: upper or lower case
      makes no difference. */
  lemma TracingLevelIgnoresCase(c: Config, d: Config)
    requires Lower(c.logLevel) == Lower(d.logLevel)
    ensures TracingLevel(c) == TracingLevel(d)
  {
  }

  /** Lower-casing the level string first does not change the level. */
  lemma TracingLevelOfLowered(c: Config)
    ensures TracingLevel(c.(logLevel := Lower(c.logLevel))) == TracingLevel(c)
  {
    LowerIdempotent(c.logLevel);
  }

  /** Where the settings file lives: `home/.akash/config.toml`. */
  function ConfigPath(home: Option<Path>): (r: Result<Path>)
    ensures r.Ok? <==> home.Some?
    ensures r.Err? ==> r.message == HomeUnknownMessage
    ensures r.Ok? ==> r.value.parts == home.value.parts + [".akash", "config.toml"]
  {
    UnderHome(home, [".akash", "config.toml"])
  }
}
