// windows_tools/server: whether the machine is a Windows server, and whether it runs Remote
// Desktop Services, from the answers of the WMI queries it makes.
module Server {
  import opened Wrappers
  import opened WmiQueries
  import opened Bits

  /** The ProductType values of a domain controller (2) and of a server (3); 1 is a workstation. */
  const ServerProductTypes: seq<WmiValue> := [Number(2), Number(3)]

  /** is_windows_server, given `Win32_OperatingSystem()[0].ProductType` (None when the query or
      the indexing raises). */
  function IsWindowsServer(productType: Option<WmiValue>): (r: Option<bool>)
    ensures r.None? <==> productType.None?
    ensures r == Some(true) <==> productType == Some(Number(2)) || productType == Some(Number(3))
  {
    match productType
    case None => None
    case Some(v) => Some(v in ServerProductTypes)
  }

  lemma WorkstationIsNotServer()
    ensures IsWindowsServer(Some(Number(1))) == Some(false)
    ensures IsWindowsServer(Some(Text("3"))) == Some(false)
  {
  }

  const SingleSessionBit: nat := 8
  /** Flag 16: Terminal Services installed. */
  const TerminalServicesBit: nat := 4

  /** The first try block on `Win32_OperatingSystem()[0].OSProductSuite`: Some(false) when
      `suite & 256` is non-zero, Some(true) when `suite & 16` is, None when neither is or when
      the read or the `&` raises (a value that is not an integer). Each `&` against a one-bit mask
      is the test of that bit (AndPow2). */
  function SuiteVerdict(suite: Option<WmiValue>): Option<bool> {
    match suite
    case Some(Number(n)) =>
      if BitSet(n, SingleSessionBit) then Some(false)
      else if BitSet(n, TerminalServicesBit) then Some(true)
      else None
    case _ => None
  }

  /** is_rds_server, given the OSProductSuite read, the `Win32_ServerFeature(ID=18)` rows and the
      running `Win32_TerminalService` rows; None stands for a query that raised. */
  function IsRdsServer(suite: Option<WmiValue>, feature: Option<seq<Row>>, terminal: Option<seq<Row>>): (r: Option<bool>)
    ensures SuiteVerdict(suite).Some? ==> r == SuiteVerdict(suite)
    ensures SuiteVerdict(suite).None? && feature.Some? ==> r == Some(feature.value != [])
    ensures SuiteVerdict(suite).None? && feature.None? ==> r == if terminal.Some? then Some(terminal.value != []) else None
  {
    var bySuite := SuiteVerdict(suite);
    if bySuite.Some? then bySuite
    else if feature.Some? then (if feature.value == [] then Some(false) else Some(true))
    else if terminal.Some? then (if terminal.value == [] then Some(false) else Some(true))
    else None
  }

  /** The masks of the source are these bits: `n & 256` and `n & 16` are non-zero exactly when
      bits 8 and 4 are set. */
  lemma SuiteMasks(n: int)
    ensures And(n, 256) != 0 <==> BitSet(n, SingleSessionBit)
    ensures And(n, 16) != 0 <==> BitSet(n, TerminalServicesBit)
  {
    AndPow2(n, 8);
    AndPow2(n, 4);
    assert Pow2(8) == 256 && Pow2(4) == 16;
  }

  /** A server with RDS in administration mode (OSProductSuite 276 = 256 + 16 + 4) is not an RDS
      server, whatever the other queries say. */
  lemma AdminModeIsNotRds(feature: Option<seq<Row>>, terminal: Option<seq<Row>>)
    ensures IsRdsServer(Some(Number(276)), feature, terminal) == Some(false)
  {
    assert BitSet(276, 8);
  }

  /** OSProductSuite 16 alone makes an RDS server. */
  lemma TerminalServicesIsRds(feature: Option<seq<Row>>, terminal: Option<seq<Row>>)
    ensures IsRdsServer(Some(Number(16)), feature, terminal) == Some(true)
  {
    assert !BitSet(16, 8) && BitSet(16, 4);
  }
}
