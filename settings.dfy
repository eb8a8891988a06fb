/**
 * The logger's configuration: the properties that name the log file and shape
 * its lines, their null defaults, and `GetFileName`.
 */
module Settings {
  import opened Wrappers
  import opened Faults

  datatype Severity = Info | Warning | Error | Exception

  /** The enum member's name, as written into the `Severity` attribute. */
  function SeverityName(s: Severity): string {
    match s
    case Info => "Info"
    case Warning => "Warning"
    case Error => "Error"
    case Exception => "Exception"
  }

  const DefaultExtension: string := "log"
  const DefaultDateFormat: string := "yyyy_MM_dd"
  const DefaultTextSeparator: string := " | "

  /**
   * The stored settings. `prefix`, `suffix`, `extension` and `dateFormat` hold
   * what was last assigned, null included; the getters below supply defaults.
   * `logDir` is the directory's full name.
   */
  datatype Config = Config(
    logDir: string,
    prefix: Option<string>,
    suffix: Option<string>,
    extension: Option<string>,
    dateFormat: Option<string>,
    textSeparator: string,
    logLevel: Severity,
    startExplicitly: bool,
    writeText: bool,
    backgroundTaskDisabled: bool)

  /** The settings before any assignment: the current directory and all defaults. */
  function InitialConfig(currentDirectory: string): (c: Config)
    ensures c.logDir == currentDirectory
    ensures Prefix(c) == "" && Suffix(c) == "" && Extension(c) == DefaultExtension && DateFormat(c) == DefaultDateFormat
    ensures c.textSeparator == DefaultTextSeparator && c.logLevel == Info
    ensures !c.startExplicitly && !c.writeText && !c.backgroundTaskDisabled
  {
    Config(currentDirectory, None, None, None, None, DefaultTextSeparator, Info, false, false, false)
  }

  /** `Prefix` get: null reads as "". */
  function Prefix(c: Config): string {
    c.prefix.GetOr("")
  }

  /** `Suffix` get: null reads as "". */
  function Suffix(c: Config): string {
    c.suffix.GetOr("")
  }

  /** `Extension` get: null reads as "log". */
  function Extension(c: Config): string {
    c.extension.GetOr(DefaultExtension)
  }

  /** `DateFormat` get: null reads as "yyyy_MM_dd". */
  function DateFormat(c: Config): string {
    c.dateFormat.GetOr(DefaultDateFormat)
  }

  /** `Prefix` set: stores the value, null included; nothing else changes. */
  function SetPrefix(c: Config, value: Option<string>): (r: Config)
    ensures Prefix(r) == (if value.Some? then value.value else "")
    ensures r.(prefix := c.prefix) == c
  {
    c.(prefix := value)
  }

  /** `Suffix` set. */
  function SetSuffix(c: Config, value: Option<string>): (r: Config)
    ensures Suffix(r) == (if value.Some? then value.value else "")
    ensures r.(suffix := c.suffix) == c
  {
    c.(suffix := value)
  }

  /** `Extension` set: assigning null returns to the default. */
  function SetExtension(c: Config, value: Option<string>): (r: Config)
    ensures Extension(r) == (if value.Some? then value.value else DefaultExtension)
    ensures r.(extension := c.extension) == c
  {
    c.(extension := value)
  }

  /** `DateFormat` set: assigning null returns to the default. */
  function SetDateFormat(c: Config, value: Option<string>): (r: Config)
    ensures DateFormat(r) == (if value.Some? then value.value else DefaultDateFormat)
    ensures r.(dateFormat := c.dateFormat) == c
  {
    c.(dateFormat := value)
  }

  /** `TextSeparator` set: null is stored as "", so the separator is never null. */
  function SetTextSeparator(c: Config, value: Option<string>): (r: Config)
    ensures r.textSeparator == (if value.Some? then value.value else "")
    ensures r.(textSeparator := c.textSeparator) == c
  {
    c.(textSeparator := value.GetOr(""))
  }

  /**
   * `DateTime.Now.ToString(pattern)`: the current time rendered with a .NET
   * date-format pattern, or the `FormatException` thrown for a pattern .NET
   * rejects.
   */
  datatype Rendering = Rendered(text: string) | Thrown(error: Exn)

  /** The clock and the .NET formatting, supplied from outside. */
  type Clock = string -> Rendering

  /**
   * `GetFileName`: `{LogDir}\{Prefix}{date in DateFormat}{Suffix}.{Extension}`;
   * the formatting's exception propagates.
   */
  function GetFileName(c: Config, now: Clock): Rendering {
    match now(DateFormat(c))
    case Thrown(e) => Thrown(e)
    case Rendered(stamp) => Rendered(c.logDir + "\\" + Prefix(c) + stamp + Suffix(c) + "." + Extension(c))
  }

  /**
   * The file name is the directory, a backslash, then the base name made of the
   * prefix, the formatted date and the suffix, then a dot and the extension;
   * a date pattern that cannot be rendered makes the name throw the same
   * exception.
   */
  lemma FileNameLayout(c: Config, now: Clock)
    ensures GetFileName(c, now).Rendered? <==> now(DateFormat(c)).Rendered?
    ensures now(DateFormat(c)).Thrown? ==> GetFileName(c, now) == now(DateFormat(c))
    ensures now(DateFormat(c)).Rendered? ==>
      var name := GetFileName(c, now).text;
      var stamp := now(DateFormat(c)).text;
      var n := |c.logDir| + 1 + |Prefix(c)|;
      && |name| == n + |stamp| + |Suffix(c)| + 1 + |Extension(c)|
      && name[..|c.logDir|] == c.logDir
      && name[|c.logDir|] == '\\'
      && name[|c.logDir| + 1..n] == Prefix(c)
      && name[n..n + |stamp|] == stamp
      && name[n + |stamp|..n + |stamp| + |Suffix(c)|] == Suffix(c)
      && name[|name| - |Extension(c)| - 1] == '.'
      && name[|name| - |Extension(c)|..] == Extension(c)
  {
  }

  /**
   * For fixed settings the file name tells the formatted date apart: two
   * instants share a log file exactly when they format alike (one file per day
   * with the default pattern).
   */
  lemma FileNameSeparatesDates(c: Config, now1: Clock, now2: Clock)
    ensures GetFileName(c, now1) == GetFileName(c, now2) <==> now1(DateFormat(c)) == now2(DateFormat(c))
  {
    var d1, d2 := now1(DateFormat(c)), now2(DateFormat(c));
    if GetFileName(c, now1) == GetFileName(c, now2) && d1.Rendered? {
      FileNameLayout(c, now1);
      FileNameLayout(c, now2);
      var n := |c.logDir| + 1 + |Prefix(c)|;
      assert |d1.text| == |d2.text|;
      assert d1.text == GetFileName(c, now1).text[n..n + |d1.text|];
    }
  }

  /** With nothing configured the file is `{current directory}\{date as yyyy_MM_dd}.log`. */
  lemma DefaultFileName(currentDirectory: string, now: Clock)
    ensures now("yyyy_MM_dd").Rendered? ==>
      GetFileName(InitialConfig(currentDirectory), now) == Rendered(currentDirectory + "\\" + now("yyyy_MM_dd").text + ".log")
  {
  }
}
