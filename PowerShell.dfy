// windows_tools/powershell: PowerShellRunner's version query and the command lines it hands to
// the process runner.
module PowerShell {
  import opened Wrappers
  import opened Text
  import opened Registry

  /** The runner: the interpreter path the constructor settled on. The constructor's search of
      the file system is not modelled; None is an interpreter that was never found. */
  datatype PowerShellRunner = PowerShellRunner(interpreter: Option<string>)

  /** What run_command and run_script hand to the process runner. */
  datatype Invocation = Invocation(commandLine: string, timeout: int, validExitCodes: seq<int>)

  const DefaultTimeout: int := 300
  const DefaultValidExitCodes: seq<int> := [0]

  // ---------------------------------------------------------------- run_command / run_script

  const CommandOptions := " -NonInteractive -NoLogo "

  /** run_command; None stands for the False returned without an interpreter. The timeout and
      the valid exit codes default to 300 and [0]. */
  function RunCommand(runner: PowerShellRunner, command: string, timeout: Option<int>,
                      validExitCodes: Option<seq<int>>): (r: Option<Invocation>)
    ensures r.None? <==> runner.interpreter.None?
    ensures r.Some? ==> r.value.timeout == timeout.GetOr(DefaultTimeout)
                        && r.value.validExitCodes == validExitCodes.GetOr(DefaultValidExitCodes)
  {
    match runner.interpreter
    case None => None
    case Some(interp) =>
      Some(Invocation(interp + CommandOptions + command, timeout.GetOr(DefaultTimeout),
                      validExitCodes.GetOr(DefaultValidExitCodes)))
  }

  /** The command can be read back from the command line: it is everything after the
      interpreter and the fixed options. */
  lemma RunCommandLine(interp: string, command: string, timeout: Option<int>, codes: Option<seq<int>>)
    ensures var line := RunCommand(PowerShellRunner(Some(interp)), command, timeout, codes).value.commandLine;
      && StartsWith(line, interp + CommandOptions)
      && line[|interp + CommandOptions|..] == command
  {
    var line := interp + CommandOptions + command;
    assert line == (interp + CommandOptions) + command;
  }

  const ScriptOptions := " -executionPolicy Bypass -NonInteractive -NoLogo -NoProfile -File "

  /** The script arguments, each in double quotes, separated by single spaces. */
  function QuotedArgs(args: seq<string>): string {
    if args == [] then ""
    else if |args| == 1 then "\"" + args[0] + "\""
    else "\"" + args[0] + "\" " + QuotedArgs(args[1..])
  }

  /** run_script; None stands for the False returned without an interpreter. The script is
      followed by one space whether or not there are arguments. */
  function RunScript(runner: PowerShellRunner, script: string, args: seq<string>, timeout: Option<int>,
                     validExitCodes: Option<seq<int>>): (r: Option<Invocation>)
    ensures r.None? <==> runner.interpreter.None?
    ensures r.Some? ==> r.value.timeout == timeout.GetOr(DefaultTimeout)
                        && r.value.validExitCodes == validExitCodes.GetOr(DefaultValidExitCodes)
  {
    match runner.interpreter
    case None => None
    case Some(interp) =>
      var separator := if |args| > 0 then " " else " ";
      Some(Invocation(interp + ScriptOptions + script + separator + QuotedArgs(args),
                      timeout.GetOr(DefaultTimeout), validExitCodes.GetOr(DefaultValidExitCodes)))
  }

  /** Without arguments the command line ends with the script and a trailing space. */
  lemma ScriptWithoutArgs(interp: string, script: string, timeout: Option<int>, codes: Option<seq<int>>)
    ensures RunScript(PowerShellRunner(Some(interp)), script, [], timeout, codes).value.commandLine
            == interp + ScriptOptions + script + " "
  {
  }

  /** Quoting keeps the arguments apart: for arguments without double quotes, the quoted list
      holds exactly two quotes per argument and one space more than the spaces inside them. */
  lemma {:induction false} QuotedArgsCounts(args: seq<string>)
    requires forall i :: 0 <= i < |args| ==> '"' !in args[i]
    ensures CountChar(QuotedArgs(args), '"') == 2 * |args|
    ensures |args| > 0 ==> CountChar(QuotedArgs(args), ' ') == |args| - 1 + SpacesIn(args)
  {
    if args != [] {
      var a := args[0];
      CountAbsent(a, '"');
      if |args| == 1 {
        CountCharAppend("\"" + a, "\"", '"');
        CountCharAppend("\"", a, '"');
        CountCharAppend("\"" + a, "\"", ' ');
        CountCharAppend("\"", a, ' ');
      } else {
        QuotedArgsCounts(args[1..]);
        var rest := QuotedArgs(args[1..]);
        CountCharAppend("\"" + a + "\" ", rest, '"');
        CountCharAppend("\"" + a, "\" ", '"');
        CountCharAppend("\"", a, '"');
        CountCharAppend("\"" + a + "\" ", rest, ' ');
        CountCharAppend("\"" + a, "\" ", ' ');
        CountCharAppend("\"", a, ' ');
      }
    }
  }

  /** The spaces inside the arguments. */
  function SpacesIn(args: seq<string>): nat {
    if args == [] then 0 else CountChar(args[0], ' ') + SpacesIn(args[1..])
  }

  lemma {:induction false} CountCharAppend(a: string, b: string, c: char)
    ensures CountChar(a + b, c) == CountChar(a, c) + CountChar(b, c)
  {
    if a != [] {
      assert (a + b)[1..] == a[1..] + b;
      CountCharAppend(a[1..], b, c);
    } else {
      assert a + b == b;
    }
  }

  // ---------------------------------------------------------------- get_version

  const VersionCommand := "$PSVersionTable.PSVersion.ToString()"

  const PowerShellEngine: KeyRef := KeyRef(HKEY_LOCAL_MACHINE, ["SOFTWARE", "Microsoft", "PowerShell", "3", "PowerShellEngine"])

  /** The text used when the registry has no PowerShellVersion. */
  const MissingVersion := "-1.-1"

  /** The parsing in get_version: four dot-separated parts, or else two, whose first two parse
      as integers; anything else is (-1, 0). */
  function ParseVersion(output: string): (r: (int, int))
    ensures var parts := Split(output, '.');
      && (|parts| != 4 && |parts| != 2 ==> r == (-1, 0))
      && (r != (-1, 0) ==> ParseInt(parts[0]) == Some(r.0) && ParseInt(parts[1]) == Some(r.1))
  {
    var parts := Split(output, '.');
    if |parts| == 4 || |parts| == 2 then
      match (ParseInt(parts[0]), ParseInt(parts[1]))
      case (Some(major), Some(minor)) => (major, minor)
      case _ => (-1, 0)
    else (-1, 0)
  }

  /** What the version text is after the registry fallback. */
  datatype VersionSource = FromText(s: string) | FromBytes | FromOther

  /** get_version's choice of text: the command's output when it exited with 0, else the
      registry value, or "-1.-1" when there is none. */
  function VersionSourceOf(exitCode: int, output: string, reg: RegState): VersionSource {
    if exitCode == 0 then FromText(output)
    else
      match LookupValue(reg, PowerShellEngine, "PowerShellVersion", Default)
      case None => FromText(MissingVersion)
      case Some(Str(s)) => FromText(s)
      case Some(Bytes(_)) => FromBytes
      case Some(_) => FromOther
  }

  /** get_version, given the exit code and output of `$PSVersionTable.PSVersion.ToString()` and
      the registry. None stands for the AttributeError that escapes when the registry value is a
      number or a list (they have no split); bytes make split raise TypeError, which is caught and
      gives (-1, 0). */
  function GetVersion(runner: PowerShellRunner, exitCode: int, output: string, reg: RegState): (r: Option<(int, int)>)
    ensures runner.interpreter.None? ==> r == Some((0, 0))
    ensures runner.interpreter.Some? && exitCode == 0 ==> r == Some(ParseVersion(output))
    ensures r.None? ==> runner.interpreter.Some? && exitCode != 0
  {
    if runner.interpreter.None? then Some((0, 0))
    else
      match VersionSourceOf(exitCode, output, reg)
      case FromText(s) => Some(ParseVersion(s))
      case FromBytes => Some((-1, 0))
      case FromOther => None
  }

  /** The text a PowerShell version prints: major.minor.build.revision. */
  function VersionText(major: int, minor: int, build: string, revision: string): string {
    IntText(major) + "." + IntText(minor) + "." + build + "." + revision
  }

  /** The four-part output of a version parses back to its major and minor numbers. */
  lemma FourPartVersion(major: int, minor: int, build: string, revision: string)
    requires '.' !in build && '.' !in revision
    ensures ParseVersion(VersionText(major, minor, build, revision)) == (major, minor)
  {
    var a := IntText(major);
    var b := IntText(minor);
    NoDotInIntText(major);
    NoDotInIntText(minor);
    SplitOfDotless(revision);
    SplitAfter(build, revision, '.');
    SplitAfter(b, build + "." + revision, '.');
    SplitAfter(a, b + "." + (build + "." + revision), '.');
    assert VersionText(major, minor, build, revision) == a + "." + (b + "." + (build + "." + revision));
    ParseIntText(major);
    ParseIntText(minor);
  }

  /** So does the two-part output of older versions (3.0). */
  lemma TwoPartVersion(major: int, minor: int)
    ensures ParseVersion(IntText(major) + "." + IntText(minor)) == (major, minor)
  {
    NoDotInIntText(major);
    NoDotInIntText(minor);
    SplitOfDotless(IntText(minor));
    SplitAfter(IntText(major), IntText(minor), '.');
    ParseIntText(major);
    ParseIntText(minor);
  }

  /** A failing command and no registry value give (-1, -1). */
  lemma MissingRegistryVersion(interp: string, exitCode: int, output: string, reg: RegState)
    requires exitCode != 0
    requires LookupValue(reg, PowerShellEngine, "PowerShellVersion", Default).None?
    ensures GetVersion(PowerShellRunner(Some(interp)), exitCode, output, reg) == Some((-1, -1))
  {
    assert IntText(-1) + "." + IntText(-1) == MissingVersion;
    TwoPartVersion(-1, -1);
  }

  /** A failing command falls back to the registry's text, parsed the same way. */
  lemma RegistryVersionUsed(interp: string, exitCode: int, output: string, reg: RegState, s: string)
    requires exitCode != 0
    requires LookupValue(reg, PowerShellEngine, "PowerShellVersion", Default) == Some(Str(s))
    ensures GetVersion(PowerShellRunner(Some(interp)), exitCode, output, reg) == Some(ParseVersion(s))
  {
  }

  /** Output with three parts (or one, or five) is not a version. */
  lemma ThreePartsIsUnknown(major: int, minor: int, build: int)
    ensures ParseVersion(IntText(major) + "." + IntText(minor) + "." + IntText(build)) == (-1, 0)
  {
    NoDotInIntText(major);
    NoDotInIntText(minor);
    NoDotInIntText(build);
    SplitOfDotless(IntText(build));
    SplitAfter(IntText(minor), IntText(build), '.');
    SplitAfter(IntText(major), IntText(minor) + "." + IntText(build), '.');
    assert IntText(major) + "." + IntText(minor) + "." + IntText(build)
        == IntText(major) + "." + (IntText(minor) + "." + IntText(build));
  }
}
