// windows_tools/signtool: SignTool.sign, which picks the signtool.exe of the right architecture,
// assembles its command line and runs it, guarded by an error-flag file that stops repeated
// attempts with a hardware token.
module Signing {
  import opened Wrappers
  import opened Text
  import Bitness

  // ---------------------------------------------------------------- the signer

  /** The fields SignTool.__init__ sets; none of them changes afterwards. */
  datatype SignTool = SignTool(certificate: Option<string>, pkcs12Password: Option<string>,
                               authorityTimestampUrl: string, sdkWinver: Option<int>,
                               containerName: Option<string>, cryptographicProvider: Option<string>)

  /** The public timestamp servers tried, in order, when no URL is given. */
  const TimestampServers: seq<string> := ["http://timestamp.digicert.com", "http://timestamp.sectigo.com",
                                          "http://timestamp.globalsign.com/scripts/timstamp.dll"]

  /** get_timestamp_server from entry `i` on, given the servers that answer; None stands for the
      ValueError "No online timeserver found". */
  function TimestampServerFrom(online: set<string>, i: nat): (r: Option<string>)
    requires i <= |TimestampServers|
    ensures r.None? <==> forall j :: i <= j < |TimestampServers| ==> TimestampServers[j] !in online
    ensures r.Some? ==> exists j :: i <= j < |TimestampServers| && r.value == TimestampServers[j] && r.value in online
                                    && forall j' :: i <= j' < j ==> TimestampServers[j'] !in online
    decreases |TimestampServers| - i
  {
    if i == |TimestampServers| then None
    else if TimestampServers[i] in online then Some(TimestampServers[i])
    else TimestampServerFrom(online, i + 1)
  }

  /** Python's truth value of an optional text: None and '' are false. */
  predicate Truthy(o: Option<string>) {
    o.Some? && o.value != ""
  }

  /** SignTool.__init__; the URL given, or else the first timestamp server that answers. None
      stands for the ValueError raised when none does. */
  function NewSignTool(certificate: Option<string>, pkcs12Password: Option<string>,
                       authorityTimestampUrl: Option<string>, sdkWinver: Option<int>,
                       containerName: Option<string>, cryptographicProvider: Option<string>,
                       online: set<string>): (r: Option<SignTool>)
    ensures Truthy(authorityTimestampUrl) ==> r.Some? && r.value.authorityTimestampUrl == authorityTimestampUrl.value
    ensures !Truthy(authorityTimestampUrl) ==>
      (r.None? <==> forall j :: 0 <= j < |TimestampServers| ==> TimestampServers[j] !in online)
    ensures r.Some? ==> r.value.certificate == certificate && r.value.pkcs12Password == pkcs12Password
                        && r.value.containerName == containerName && r.value.cryptographicProvider == cryptographicProvider
  {
    var url := if Truthy(authorityTimestampUrl) then Some(authorityTimestampUrl.value)
               else TimestampServerFrom(online, 0);
    if url.None? then None
    else Some(SignTool(certificate, pkcs12Password, url.value, sdkWinver, containerName, cryptographicProvider))
  }

  // ---------------------------------------------------------------- bitness

  /** The `bitness` argument: None, an int or a text. */
  datatype BitnessArg = NoBitness | Num(n: int) | Name(s: string)

  predicate Falsy(b: BitnessArg) {
    b == NoBitness || b == Num(0) || b == Name("")
  }

  /** The bitness after autodetection: a falsy argument is replaced by 64 or 32 when the
      executable's type can be determined, and kept otherwise. */
  function EffectiveBitness(bitness: BitnessArg, detected: Option<bool>): (r: BitnessArg)
    ensures !Falsy(bitness) ==> r == bitness
    ensures Falsy(bitness) && detected == Some(true) ==> r == Num(64)
    ensures Falsy(bitness) && detected == Some(false) ==> r == Num(32)
    ensures Falsy(bitness) && detected.None? ==> Falsy(r)
  {
    if Falsy(bitness) && detected.Some? then Num(if detected.value then 64 else 32) else bitness
  }

  datatype ToolArch = X86 | X64

  datatype SignError =
    | CannotAutodetect   // ValueError
    | BogusBitness       // ValueError
    | SigntoolNotFound   // EnvironmentError
    | DetectionFailed    // StopIteration escaping detect_signtool
    | ErrorFlagPresent   // EnvironmentError
    | SigningFailed      // AttributeError

  const CannotAutodetectMessage := "Cannot autodetect bitness. Please specify bitness or install win32file"
  const BogusBitnessMessage := "Bogus bitness."

  /** The dispatch on the (effective) bitness. */
  function SelectArch(b: BitnessArg): (r: Result<ToolArch, SignError>)
    ensures r == Ok(X86) <==> b == Num(32) || b == Name("32") || b == Name("x86")
    ensures r == Ok(X64) <==> b == Num(64) || b == Name("64") || b == Name("x64")
    ensures r == Err(CannotAutodetect) <==> Falsy(b)
    ensures r.Err? ==> r.error == CannotAutodetect || r.error == BogusBitness
  {
    if b in [Num(32), Name("32"), Name("x86")] then Ok(X86)
    else if b in [Num(64), Name("64"), Name("x64")] then Ok(X64)
    else if Falsy(b) then Err(CannotAutodetect)
    else Err(BogusBitness)
  }

  const SigntoolX32Variable := "SIGNTOOL_X32"
  const SigntoolX64Variable := "SIGNTOOL_X64"

  /** How detect_signtool ends for one architecture. Its globbing of the Windows Kits directory
      is not modelled: an empty generator is truthy, so `if not sdk_base_dir` never returns, and
      `next` on an empty generator raises StopIteration, both for the SDK base directory and for
      signtool.exe; only an empty list of SDK versions (the IndexError caught) gives None. */
  datatype Detection =
    | Detected(path: string)   // the first signtool.exe under the newest SDK version
    | NoSdkVersion             // None
    | Stops                    // StopIteration

  /** The signtool path for an architecture: `os.environ.get(variable, self.detect_signtool(arch))`.
      The default is evaluated first, so a detection that raises escapes even when the variable is
      set; otherwise the variable wins over what detection returned. */
  function SigntoolPath(arch: ToolArch, env: Bitness.Environment, detection: Detection): (r: Result<Option<string>, SignError>)
    ensures r.Err? <==> detection.Stops?
    ensures r.Err? ==> r.error == DetectionFailed
    ensures var variable := if arch == X86 then SigntoolX32Variable else SigntoolX64Variable;
      && (!detection.Stops? && variable in env ==> r == Ok(Some(env[variable])))
      && (detection.Detected? && variable !in env ==> r == Ok(Some(detection.path)))
      && (detection.NoSdkVersion? && variable !in env ==> r == Ok(None))
  {
    var variable := if arch == X86 then SigntoolX32Variable else SigntoolX64Variable;
    match detection
    case Stops => Err(DetectionFailed)
    case NoSdkVersion => Ok(if variable in env then Some(env[variable]) else None)
    case Detected(p) => Ok(if variable in env then Some(env[variable]) else Some(p))
  }

  /** The branch of sign that picks the tool: the dispatch on the bitness, and in the x86 or x64
      branch the path for that architecture, only that architecture's detection being run. */
  function SelectSigntool(b: BitnessArg, env: Bitness.Environment, detectX86: Detection, detectX64: Detection)
    : (r: Result<Option<string>, SignError>)
    ensures b == Num(32) || b == Name("32") || b == Name("x86") ==> r == SigntoolPath(X86, env, detectX86)
    ensures b == Num(64) || b == Name("64") || b == Name("x64") ==> r == SigntoolPath(X64, env, detectX64)
    ensures Falsy(b) ==> r == Err(CannotAutodetect)
    ensures !Falsy(b) && b !in [Num(32), Name("32"), Name("x86"), Num(64), Name("64"), Name("x64")] ==>
      r == Err(BogusBitness)
  {
    match SelectArch(b)
    case Err(e) => Err(e)
    case Ok(X86) => SigntoolPath(X86, env, detectX86)
    case Ok(X64) => SigntoolPath(X64, env, detectX64)
  }

  /** Setting SIGNTOOL_X32 or SIGNTOOL_X64 does not protect sign from a detection that raises:
      the selected architecture's detection runs before the environment is looked at. */
  lemma EnvironmentDoesNotShieldDetection(b: BitnessArg, env: Bitness.Environment, detectX86: Detection,
                                          detectX64: Detection)
    requires SelectArch(b).Ok?
    ensures var d := if SelectArch(b).value == X86 then detectX86 else detectX64;
      SelectSigntool(b, env, detectX86, detectX64) == Err(DetectionFailed) <==> d.Stops?
  {
  }

  // ---------------------------------------------------------------- the command line

  /** Python's "{}".format of an optional text. */
  function Formatted(o: Option<string>): string {
    if o.Some? then o.value else "None"
  }

  /** The arguments of the command line, in order. */
  datatype Arg =
    | SignHead(url: string)
    | CertificateFile(path: string)
    | KeyContainer(password: string, container: string)
    | Password(password: string)
    | Provider(name: string)
    | Target(executable: string)

  function Render(a: Arg): string {
    match a
    case SignHead(url) => " sign -tr " + url + " -td sha256 -fd sha256"
    case CertificateFile(path) => " -f " + path
    case KeyContainer(password, container) => " -kc \"[{{" + password + "}}]=" + container + "\""
    case Password(password) => " -p " + password
    case Provider(name) => " -csp \"" + name + "\""
    case Target(executable) => " \"" + executable + "\""
  }

  /** Each argument rendered, in order. */
  function Rendered(args: seq<Arg>): (r: seq<string>)
    ensures |r| == |args| && forall i :: 0 <= i < |args| ==> r[i] == Render(args[i])
  {
    if args == [] then [] else [Render(args[0])] + Rendered(args[1..])
  }

  function RenderAll(args: seq<Arg>): string {
    Concat(Rendered(args))
  }

  /** The certificate options: the file, then the key container (which carries the password) or
      else the password itself. */
  function CertificateArgs(tool: SignTool): seq<Arg> {
    if Truthy(tool.certificate) then
      [CertificateFile(tool.certificate.value)]
      + (if Truthy(tool.containerName) then [KeyContainer(Formatted(tool.pkcs12Password), tool.containerName.value)]
         else if Truthy(tool.pkcs12Password) then [Password(tool.pkcs12Password.value)]
         else [])
    else []
  }

  function ProviderArgs(tool: SignTool): seq<Arg> {
    if Truthy(tool.cryptographicProvider) then [Provider(tool.cryptographicProvider.value)] else []
  }

  /** The arguments sign passes to signtool. */
  function Arguments(tool: SignTool, executable: string): seq<Arg> {
    [SignHead(tool.authorityTimestampUrl)] + CertificateArgs(tool) + ProviderArgs(tool) + [Target(executable)]
  }

  lemma RenderAllAppend(a: seq<Arg>, b: seq<Arg>)
    ensures RenderAll(a + b) == RenderAll(a) + RenderAll(b)
  {
    assert Rendered(a + b) == Rendered(a) + Rendered(b);
    ConcatAppend(Rendered(a), Rendered(b));
  }

  lemma RenderOne(a: Arg)
    ensures RenderAll([a]) == Render(a)
  {
    var l := Rendered([a]);
    assert |l| == 1 && l[0] == Render(a);
    ConcatOne(l);
  }

  /** Appending one argument appends its text. */
  lemma RenderStep(signtool: string, cmd: string, args: seq<Arg>, a: Arg)
    requires cmd == signtool + RenderAll(args)
    ensures cmd + Render(a) == signtool + RenderAll(args + [a])
  {
    RenderAllAppend(args, [a]);
    RenderOne(a);
    AppendAssoc(signtool, RenderAll(args), Render(a));
  }

  /** The `cmd +=` steps of sign: the command line is the tool followed by the rendered
      arguments. */
  method SignCommand(tool: SignTool, signtool: string, executable: string) returns (cmd: string)
    ensures cmd == signtool + RenderAll(Arguments(tool, executable))
  {
    ghost var args: seq<Arg> := [];
    cmd := signtool;
    RenderStep(signtool, cmd, args, SignHead(tool.authorityTimestampUrl));
    args := args + [SignHead(tool.authorityTimestampUrl)];
    cmd := cmd + (" sign -tr " + tool.authorityTimestampUrl + " -td sha256 -fd sha256");
    if Truthy(tool.certificate) {
      RenderStep(signtool, cmd, args, CertificateFile(tool.certificate.value));
      args := args + [CertificateFile(tool.certificate.value)];
      cmd := cmd + (" -f " + tool.certificate.value);
      if Truthy(tool.containerName) {
        var a := KeyContainer(Formatted(tool.pkcs12Password), tool.containerName.value);
        RenderStep(signtool, cmd, args, a);
        args := args + [a];
        cmd := cmd + (" -kc \"[{{" + Formatted(tool.pkcs12Password) + "}}]=" + tool.containerName.value + "\"");
      } else if Truthy(tool.pkcs12Password) {
        RenderStep(signtool, cmd, args, Password(tool.pkcs12Password.value));
        args := args + [Password(tool.pkcs12Password.value)];
        cmd := cmd + (" -p " + tool.pkcs12Password.value);
      }
    }
    assert args == [SignHead(tool.authorityTimestampUrl)] + CertificateArgs(tool);
    if Truthy(tool.cryptographicProvider) {
      RenderStep(signtool, cmd, args, Provider(tool.cryptographicProvider.value));
      args := args + [Provider(tool.cryptographicProvider.value)];
      cmd := cmd + (" -csp \"" + tool.cryptographicProvider.value + "\"");
    }
    RenderStep(signtool, cmd, args, Target(executable));
    args := args + [Target(executable)];
    cmd := cmd + (" \"" + executable + "\"");
    assert args == Arguments(tool, executable);
  }

  predicate HasKeyContainer(args: seq<Arg>) {
    exists i :: 0 <= i < |args| && args[i].KeyContainer?
  }

  predicate HasPassword(args: seq<Arg>) {
    exists i :: 0 <= i < |args| && args[i].Password?
  }

  predicate HasProvider(args: seq<Arg>) {
    exists i :: 0 <= i < |args| && args[i].Provider?
  }

  /** How the password reaches signtool: inside the key-container option exactly when a
      certificate and a container are given, as `-p` exactly when a certificate and a password
      but no container are given, never both, and never without a certificate. */
  lemma PasswordForms(tool: SignTool, executable: string)
    ensures HasKeyContainer(Arguments(tool, executable)) <==> Truthy(tool.certificate) && Truthy(tool.containerName)
    ensures HasPassword(Arguments(tool, executable))
            <==> Truthy(tool.certificate) && !Truthy(tool.containerName) && Truthy(tool.pkcs12Password)
    ensures !(HasKeyContainer(Arguments(tool, executable)) && HasPassword(Arguments(tool, executable)))
  {
    var args := Arguments(tool, executable);
    var c := CertificateArgs(tool);
    assert forall i :: 0 <= i < |args| && (args[i].KeyContainer? || args[i].Password?) ==> 1 <= i < 1 + |c|;
    if Truthy(tool.certificate) && Truthy(tool.containerName) {
      assert args[2].KeyContainer?;
    }
    if Truthy(tool.certificate) && !Truthy(tool.containerName) && Truthy(tool.pkcs12Password) {
      assert args[2].Password?;
    }
  }

  /** The provider option appears exactly when a provider is given, certificate or not. */
  lemma ProviderIndependent(tool: SignTool, executable: string)
    ensures HasProvider(Arguments(tool, executable)) <==> Truthy(tool.cryptographicProvider)
  {
    var args := Arguments(tool, executable);
    var c := CertificateArgs(tool);
    if Truthy(tool.cryptographicProvider) {
      assert args[1 + |c|].Provider?;
    }
    assert forall i :: 0 <= i < |args| && args[i].Provider? ==> i == 1 + |c|;
  }

  /** The command line always starts with the tool and the timestamp options and always ends with
      the quoted executable. */
  lemma CommandFrame(tool: SignTool, signtool: string, executable: string)
    ensures var cmd := signtool + RenderAll(Arguments(tool, executable));
      && StartsWith(cmd, signtool + " sign -tr " + tool.authorityTimestampUrl + " -td sha256 -fd sha256")
      && EndsWith(cmd, " \"" + executable + "\"")
  {
    var url := tool.authorityTimestampUrl;
    var head := [SignHead(url)];
    var mid := CertificateArgs(tool) + ProviderArgs(tool);
    var args := Arguments(tool, executable);
    assert args == head + mid + [Target(executable)];
    RenderStep(signtool, signtool, [], head[0]);
    assert [] + head == head;
    RenderAllAppend(head, mid);
    RenderStep(signtool, signtool + RenderAll(head + mid), head + mid, Target(executable));
    var cmd := signtool + RenderAll(args);
    var h := Render(head[0]);
    var t := Render(Target(executable));
    var rest := RenderAll(mid) + t;
    assert cmd == signtool + h + RenderAll(mid) + t;
    AppendAssoc(signtool + h, RenderAll(mid), t);
    var tail := " -td sha256 -fd sha256";
    AppendAssoc(signtool, " sign -tr " + url, tail);
    AppendAssoc(signtool, " sign -tr ", url);
    assert signtool + h == signtool + " sign -tr " + url + tail;
    assert cmd == (signtool + " sign -tr " + url + tail) + rest;
  }

  // ---------------------------------------------------------------- sign

  /** What sign finds outside the process: win32file's answer for the executable, the
      environment, what detect_signtool finds per architecture, the paths that exist, and the exit
      code signtool would return. */
  datatype SignHost = SignHost(hasWin32File: bool, binaryType: int, env: Bitness.Environment,
                               detectX86: Detection, detectX64: Detection,
                               existing: set<string>, exitCode: int)

  /** The outcome of sign: True, with the command run (or printed on a dry run), or the error. */
  datatype Outcome = Signed(cmd: string) | Raised(error: SignError)

  /** SignTool.sign. `flagFile` says whether signtool.err.log exists; `flagAfter` whether it
      exists afterwards. */
  method Sign(tool: SignTool, executable: string, bitness: BitnessArg, dryRun: bool, host: SignHost, flagFile: bool)
    returns (r: Outcome, flagAfter: bool)
    ensures var b := EffectiveBitness(bitness, Bitness.Is64BitExecutable(host.hasWin32File, host.binaryType));
      && var path := SelectSigntool(b, host.env, host.detectX86, host.detectX64);
      && (path.Err? ==> r == Raised(path.error) && flagAfter == flagFile)
      && (path.Ok? ==>
            if path.value.None? || path.value.value !in host.existing then r == Raised(SigntoolNotFound) && flagAfter == flagFile
            else var cmd := path.value.value + RenderAll(Arguments(tool, executable));
              if dryRun then r == Signed(cmd) && flagAfter == flagFile
              else if flagFile && Truthy(tool.containerName) then r == Raised(ErrorFlagPresent) && flagAfter
              else if host.exitCode == 0 then r == Signed(cmd) && flagAfter == flagFile
              else r == Raised(SigningFailed) && flagAfter)
  {
    var detected := Bitness.Is64BitExecutable(host.hasWin32File, host.binaryType);
    var b := EffectiveBitness(bitness, detected);
    flagAfter := flagFile;
    var path := SelectSigntool(b, host.env, host.detectX86, host.detectX64);
    if path.Err? {
      return Raised(path.error), flagAfter;
    }
    var signtool := path.value;
    if signtool.None? || signtool.value !in host.existing {
      return Raised(SigntoolNotFound), flagAfter;
    }
    var cmd := SignCommand(tool, signtool.value, executable);
    if dryRun {
      return Signed(cmd), flagAfter;
    }
    if flagFile && Truthy(tool.containerName) {
      return Raised(ErrorFlagPresent), flagAfter;
    }
    if host.exitCode == 0 {
      return Signed(cmd), flagAfter;
    }
    flagAfter := true;
    r := Raised(SigningFailed);
  }

  /** Autodetection: a 64-bit executable selects the x64 tool and anything else win32file can
      classify selects the x86 tool; without win32file a missing bitness cannot be resolved. */
  lemma AutodetectedArch(bitness: BitnessArg, hasWin32File: bool, binaryType: int)
    requires Falsy(bitness)
    ensures var b := EffectiveBitness(bitness, Bitness.Is64BitExecutable(hasWin32File, binaryType));
      && (hasWin32File && binaryType == Bitness.Scs64BitBinary ==> SelectArch(b) == Ok(X64))
      && (hasWin32File && binaryType != Bitness.Scs64BitBinary ==> SelectArch(b) == Ok(X86))
      && (!hasWin32File ==> SelectArch(b) == Err(CannotAutodetect))
  {
  }

  /** A bitness given explicitly is never overridden by autodetection. */
  lemma ExplicitBitnessWins(bitness: BitnessArg, detected: Option<bool>)
    requires !Falsy(bitness)
    ensures SelectArch(EffectiveBitness(bitness, detected)) == SelectArch(bitness)
  {
  }
}
