/**
 * `GetArguments` of the launcher: strip the launcher's own executable name
 * from the process command line, then split off the next token, quoted or not,
 * as the path of the program to run, and return what follows it.
 */
module CommandLine {
  import opened Wrappers
  import opened Text

  /** The target's path and the arguments handed on to it. */
  datatype Arguments = Arguments(execPath: string, arguments: string)

  /**
   * Where the launcher's arguments start in the trimmed command line: after
   * its own executable name, and after the two quotes around it when the
   * command line starts with a quote.
   */
  function ArgsStartIndex(executable: string, commandLine: string): nat {
    |executable| + if StartsWith(commandLine, "\"") then 2 else 0
  }

  /** The path of the target and the text after it, before trimming. */
  datatype Token = Token(execPath: string, rest: string)

  /**
   * One past the closing quote when `args` starts with a quote, one past the
   * first space otherwise; 0 (that is -1 + 1) when there is none.
   */
  function SplitIndex(args: string): int
    requires |args| >= 1 || !StartsWith(args, "\"")
  {
    if StartsWith(args, "\"") then IndexOf(args, '"', 1) + 1 else IndexOf(args, ' ', 0) + 1
  }

  /**
   * The second half of `GetArguments`: take the target's path off the front of
   * `args`. A quoted path runs from after the opening quote to before the next
   * quote, an unquoted one up to the first space. The two `Substring` calls
   * throw (None) when the length computed from `SplitIndex` is negative.
   */
  function NextToken(args: string): Option<Token> {
    var next := SplitIndex(args);
    if StartsWith(args, "\"") then
      if next - 2 < 0 then None else Some(Token(args[1..next - 1], args[next..]))
    else
      if next - 1 < 0 then None else Some(Token(args[..next - 1], args[next..]))
  }

  /** The remainder after the launcher's own name, trimmed; None when the strip offset lies past the end. */
  function Remainder(argv0: string, commandLine: string): (r: Option<string>)
    ensures r.None? <==> ArgsStartIndex(Trim(argv0), Trim(commandLine)) > |Trim(commandLine)|
    ensures r.Some? ==> Trimmed(r.value)
  {
    var line := Trim(commandLine);
    var start := ArgsStartIndex(Trim(argv0), line);
    if start > |line| then None else Some(Trim(line[start..]))
  }

  /**
   * The strip removes exactly the launcher's own name when the command line
   * repeats it in quotes: what is left is the text after the closing quote,
   * trimmed.
   */
  lemma {:induction false} QuotedLauncherStripped(exe: string, rest: string)
    requires Trimmed(exe)
    ensures Remainder(exe, "\"" + exe + "\"" + rest) == Some(Trim(rest))
  {
    var head := "\"" + exe + "\"";
    TrimOfPrefixed(head, rest);
    TrimOfTrimmed(exe);
    var line := head + TrimEnd(rest);
    assert line[..1] == "\"";
    assert line[|exe| + 2..] == TrimEnd(rest);
    TrimOfTrimEnd(rest);
  }

  /**
   * The same without quotes: a command line that starts with the launcher's
   * name leaves the text after that name, trimmed.
   */
  lemma {:induction false} UnquotedLauncherStripped(exe: string, rest: string)
    requires Trimmed(exe) && |exe| > 0 && exe[0] != '"'
    ensures Remainder(exe, exe + rest) == Some(Trim(rest))
  {
    assert !IsWhiteSpace(exe[0]) && !IsWhiteSpace(exe[|exe| - 1]);
    TrimOfPrefixed(exe, rest);
    TrimOfTrimmed(exe);
    var line := exe + TrimEnd(rest);
    assert line[0] == exe[0];
    assert !StartsWith(line, "\"");
    assert line[|exe|..] == TrimEnd(rest);
    TrimOfTrimEnd(rest);
  }

  /**
   * `GetArguments`, with `argv0` the first element of the command-line
   * arguments and `commandLine` the raw command line. None stands for the
   * `ArgumentOutOfRangeException` a `Substring` throws: the strip offset lies
   * past the end, or the target's path is not closed.
   */
  function GetArguments(argv0: string, commandLine: string): (r: Option<Arguments>)
    ensures r.Some? <==> Remainder(argv0, commandLine).Some? && NextToken(Remainder(argv0, commandLine).value).Some?
    ensures r.Some? ==> Trimmed(r.value.arguments)
    ensures r.Some? ==> var t := NextToken(Remainder(argv0, commandLine).value).value;
      r.value.execPath == t.execPath && r.value.arguments == Trim(t.rest)
  {
    match Remainder(argv0, commandLine)
    case None => None
    case Some(args) =>
      match NextToken(args)
      case None => None
      case Some(t) => Some(Arguments(t.execPath, Trim(t.rest)))
  }

  /**
   * Exactly two conditions make taking the path off fail: a quoted path with no
   * closing quote, an unquoted path with no space after it.
   */
  lemma NextTokenFails(args: string)
    ensures NextToken(args).None? <==>
      if StartsWith(args, "\"") then forall k :: 1 <= k < |args| ==> args[k] != '"'
      else forall k :: 0 <= k < |args| ==> args[k] != ' '
  {
  }

  /** A quoted path taken off `args` is the text between its first two quotes. */
  lemma NextTokenQuoted(args: string)
    requires NextToken(args).Some? && StartsWith(args, "\"")
    ensures var t := NextToken(args).value;
      && args == "\"" + t.execPath + "\"" + t.rest
      && forall k :: 0 <= k < |t.execPath| ==> t.execPath[k] != '"'
  {
    var close := IndexOf(args, '"', 1);
    var t := Token(args[1..close], args[close + 1..]);
    assert NextToken(args) == Some(t);
    assert args[0] == '"' by { assert args[..1] == "\""; }
    assert args == [args[0]] + args[1..close] + [args[close]] + args[close + 1..];
  }

  /** An unquoted path taken off `args` is the text before its first space. */
  lemma NextTokenUnquoted(args: string)
    requires NextToken(args).Some? && !StartsWith(args, "\"")
    ensures var t := NextToken(args).value;
      && args == t.execPath + " " + t.rest
      && forall k :: 0 <= k < |t.execPath| ==> t.execPath[k] != ' '
  {
    var space := IndexOf(args, ' ', 0);
    var t := Token(args[..space], args[space + 1..]);
    assert NextToken(args) == Some(t);
    assert args == args[..space] + [args[space]] + args[space + 1..];
  }

  /** Putting a quoted path back in front of any text and taking it off again gives both back. */
  lemma {:induction false} QuotedRoundTrip(execPath: string, rest: string)
    requires forall k :: 0 <= k < |execPath| ==> execPath[k] != '"'
    ensures NextToken("\"" + execPath + "\"" + rest) == Some(Token(execPath, rest))
  {
    var args := "\"" + execPath + "\"" + rest;
    assert args[..1] == "\"";
    assert forall k :: 1 <= k < |execPath| + 1 ==> args[k] == execPath[k - 1];
    assert args[|execPath| + 1] == '"';
    assert IndexOf(args, '"', 1) == |execPath| + 1;
    assert args[1..|execPath| + 1] == execPath;
    assert args[|execPath| + 2..] == rest;
  }

  /** Putting an unquoted path without spaces and a space in front of any text, and taking it off again, gives both back. */
  lemma {:induction false} UnquotedRoundTrip(execPath: string, rest: string)
    requires forall k :: 0 <= k < |execPath| ==> execPath[k] != ' '
    requires !StartsWith(execPath + " " + rest, "\"")
    ensures NextToken(execPath + " " + rest) == Some(Token(execPath, rest))
  {
    var args := execPath + " " + rest;
    assert forall k :: 0 <= k < |execPath| ==> args[k] == execPath[k];
    assert args[|execPath|] == ' ';
    assert IndexOf(args, ' ', 0) == |execPath|;
    assert args[..|execPath|] == execPath;
    assert args[|execPath| + 1..] == rest;
  }

  /** Both parts of a token are pieces of the text it was taken from. */
  lemma NextTokenSlices(args: string)
    requires NextToken(args).Some?
    ensures IsSlice(NextToken(args).value.execPath, args) && IsSlice(NextToken(args).value.rest, args)
  {
    var t := NextToken(args).value;
    var next := SplitIndex(args);
    assert t.rest == args[next..|args|];
    if StartsWith(args, "\"") {
      assert t.execPath == args[1..next - 1];
    } else {
      assert t.execPath == args[0..next - 1];
    }
  }

  /** The remainder is a piece of the trimmed command line. */
  lemma RemainderSlice(argv0: string, commandLine: string)
    requires Remainder(argv0, commandLine).Some?
    ensures IsSlice(Remainder(argv0, commandLine).value, Trim(commandLine))
  {
    var line := Trim(commandLine);
    TrimOfSuffixIsSlice(line, ArgsStartIndex(Trim(argv0), line));
  }

  /** The path and the arguments are both pieces of the trimmed command line. */
  lemma GetArgumentsSlices(argv0: string, commandLine: string)
    requires GetArguments(argv0, commandLine).Some?
    ensures var r := GetArguments(argv0, commandLine).value;
      IsSlice(r.execPath, Trim(commandLine)) && IsSlice(r.arguments, Trim(commandLine))
  {
    var line := Trim(commandLine);
    var args := Remainder(argv0, commandLine).value;
    RemainderSlice(argv0, commandLine);
    var t := NextToken(args).value;
    NextTokenSlices(args);
    SliceOfSlice(t.execPath, args, line);
    SliceOfSlice(t.rest, args, line);
    TrimIsSlice(t.rest);
    SliceOfSlice(Trim(t.rest), t.rest, line);
  }
}
