// windows_tools/bitness: whether Windows is 64-bit, from the environment variables, and whether an
// executable is a 64-bit one, from the binary type Windows reports for it.
module Bitness {
  import opened Wrappers
  import opened Text

  /** os.environ, with the variable names as Windows stores them (upper case). */
  type Environment = map<string, string>

  /** Set for a 32-bit process running on 64-bit Windows. */
  const Wow64Variable := "PROCESSOR_ARCHITEW6432"
  const ArchVariable := "PROCESSOR_ARCHITECTURE"
  const ProgramFilesX86 := "PROGRAMFILES(X86)"

  /** is_64bit. */
  function Is64Bit(env: Environment): bool {
    if Wow64Variable in env then true
    else if ArchVariable in env then EndsWith(env[ArchVariable], "64") || EndsWith(env[ArchVariable], "64T")
    else ProgramFilesX86 in env
  }

  /** The three variables the test reads. */
  function Relevant(env: Environment): (r: Environment)
    ensures forall k :: k in r <==> k in env && k in {Wow64Variable, ArchVariable, ProgramFilesX86}
  {
    map k | k in env && k in {Wow64Variable, ArchVariable, ProgramFilesX86} :: env[k]
  }

  /** PROCESSOR_ARCHITEW6432 wins over everything; then PROCESSOR_ARCHITECTURE decides alone;
      PROGRAMFILES(X86) is looked at only when both are absent; no other variable matters. */
  lemma Is64BitPrecedence(env: Environment)
    ensures Wow64Variable in env ==> Is64Bit(env)
    ensures Wow64Variable !in env && ArchVariable in env ==>
      (Is64Bit(env) <==> EndsWith(env[ArchVariable], "64") || EndsWith(env[ArchVariable], "64T"))
    ensures Wow64Variable !in env && ArchVariable !in env ==> (Is64Bit(env) <==> ProgramFilesX86 in env)
    ensures Is64Bit(env) == Is64Bit(Relevant(env))
  {
  }

  /** The architectures Windows names: AMD64, IA64, ARM64 and EM64T are 64-bit, x86 is not. */
  lemma KnownArchitectures(env: Environment)
    requires Wow64Variable !in env && ArchVariable in env
    ensures env[ArchVariable] in {"AMD64", "IA64", "ARM64", "EM64T"} ==> Is64Bit(env)
    ensures env[ArchVariable] == "x86" ==> !Is64Bit(env)
  {
    var v := env[ArchVariable];
    if v == "EM64T" {
      assert v[|v| - 3..] == "64T";
    } else if v in {"AMD64", "IA64", "ARM64"} {
      assert v[|v| - 2..] == "64";
    }
  }

  /** SCS_64BIT_BINARY, the GetBinaryType answer for a 64-bit Windows executable. */
  const Scs64BitBinary: int := 6

  /** is_64bit_executable, given whether win32file could be imported and the binary type it
      reports. */
  function Is64BitExecutable(hasWin32File: bool, binaryType: int): (r: Option<bool>)
    ensures r.None? <==> !hasWin32File
    ensures r == Some(true) <==> hasWin32File && binaryType == 6
  {
    if hasWin32File then Some(binaryType == Scs64BitBinary) else None
  }
}
