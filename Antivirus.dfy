// windows_tools/antivirus: the SecurityCenter productState decoders, and the antivirus list built
// from SecurityCenter rows and from the installed programs that look like antivirus products.
module Antivirus {
  import opened Wrappers
  import opened Text
  import opened WmiQueries
  import opened Registry
  import opened InstalledSoftware

  /** ValueError (bad or too long state) and TypeError (a None or non-text value where text or a
      number is needed). */
  datatype AvError = ValueError | TypeError

  // ---------------------------------------------------------------- prepare_raw_state

  const HexAlphabet: string := "0123456789abcdef"

  /** Lowercase hexadecimal digits of `n`, without leading zeros. */
  function Hex(n: nat): (r: string)
    ensures |r| >= 1 && forall k :: 0 <= k < |r| ==> r[k] in HexAlphabet
  {
    if n < 16 then [HexAlphabet[n]] else Hex(n / 16) + [HexAlphabet[n % 16]]
  }

  function HexDigitValue(c: char): nat {
    if '0' <= c <= '9' then c as int - '0' as int
    else if 'a' <= c <= 'f' then c as int - 'a' as int + 10
    else 0
  }

  /** The number lowercase hex text stands for. */
  function HexValue(s: string): nat {
    if s == [] then 0 else HexValue(s[..|s| - 1]) * 16 + HexDigitValue(s[|s| - 1])
  }

  function Pow16(k: nat): nat {
    if k == 0 then 1 else 16 * Pow16(k - 1)
  }

  function Zeros(k: nat): (r: string)
    ensures |r| == k && forall i :: 0 <= i < k ==> r[i] == '0'
  {
    if k == 0 then [] else Zeros(k - 1) + ['0']
  }

  /** `s` left-padded with zeros to `width` characters. */
  function ZeroPad(s: string, width: nat): (r: string)
    ensures |r| == if |s| < width then width else |s|
    ensures forall k :: 0 <= k < |r| - |s| ==> r[k] == '0'
    ensures r[|r| - |s|..] == s
  {
    if |s| < width then Zeros(width - |s|) + s else s
  }

  /** `"{0:#0{1}x}".format(n, 8)`: sign, `0x` and hex digits zero-padded to eight characters in all. */
  function FormatState(n: int): (r: string)
    ensures |r| >= 8
  {
    if n >= 0 then "0x" + ZeroPad(Hex(n), 6) else "-0x" + ZeroPad(Hex(-n), 5)
  }

  /** `int(raw_state)`: a number is taken as is, text is parsed, None raises TypeError. */
  function StateNumber(raw: WmiValue): Result<int, AvError> {
    match raw
    case Number(n) => Ok(n)
    case Text(s) => if ParseInt(s).Some? then Ok(ParseInt(s).value) else Err(ValueError)
    case Null => Err(TypeError)
  }

  /** prepare_raw_state: the formatted state, or ValueError when it is longer than 8 characters. */
  function PrepareRawState(raw: WmiValue): (r: Result<string, AvError>)
    ensures r.Ok? ==> |r.value| == 8
  {
    match StateNumber(raw)
    case Err(e) => Err(e)
    case Ok(n) =>
      var state := FormatState(n);
      if |state| > 8 then Err(ValueError) else Ok(state)
  }

  lemma HexDigitOf(d: nat)
    requires d < 16
    ensures HexDigitValue(HexAlphabet[d]) == d
  {
  }

  lemma {:induction false} HexValueOfHex(n: nat)
    ensures HexValue(Hex(n)) == n
  {
    if n < 16 {
      HexDigitOf(n);
      HexValueSnoc([], HexAlphabet[n]);
    } else {
      var q, d := n / 16, n % 16;
      HexValueOfHex(q);
      HexDigitOf(d);
      HexValueSnoc(Hex(q), HexAlphabet[d]);
    }
  }

  /** One more hex digit at the end multiplies the value by 16 and adds the digit's value. */
  lemma HexValueSnoc(s: string, c: char)
    ensures HexValue(s + [c]) == HexValue(s) * 16 + HexDigitValue(c)
  {
    assert (s + [c])[..|s|] == s;
  }

  lemma {:induction false} Pow16AtLeast(k: nat)
    requires k >= 1
    ensures Pow16(k) >= 16
  {
    if k > 1 {
      Pow16AtLeast(k - 1);
    }
  }

  lemma {:induction false} HexLength(n: nat, k: nat)
    requires k >= 1
    ensures |Hex(n)| <= k <==> n < Pow16(k)
  {
    Pow16AtLeast(k);
    if n >= 16 {
      if k > 1 {
        HexLength(n / 16, k - 1);
        var p := Pow16(k - 1);
        assert n / 16 < p <==> n < 16 * p;
      } else {
        assert |Hex(n)| >= 2 by { assert Hex(n) == Hex(n / 16) + [HexAlphabet[n % 16]]; }
      }
    }
  }

  lemma {:induction false} LeadingZeros(s: string, z: nat)
    ensures HexValue(Zeros(z) + s) == HexValue(s)
    decreases |s|
  {
    if s == [] {
      ZerosValue(z);
      assert Zeros(z) + s == Zeros(z);
    } else {
      var t := Zeros(z) + s;
      assert t[..|t| - 1] == Zeros(z) + s[..|s| - 1];
      LeadingZeros(s[..|s| - 1], z);
    }
  }

  lemma {:induction false} ZerosValue(z: nat)
    ensures HexValue(Zeros(z)) == 0
  {
    if z > 0 {
      assert Zeros(z)[..z - 1] == Zeros(z - 1);
      ZerosValue(z - 1);
    }
  }

  /** prepare_raw_state succeeds exactly for numbers whose formatted text fits eight characters
      (0 up to 0xffffff, and negatives down to -0xfffff); a non-negative state then reads
      `0x` followed by six hex digits whose value is the state. */
  lemma PrepareRawStateFits(n: int)
    ensures PrepareRawState(Number(n)).Ok? <==> -(Pow16(5) as int) < n < Pow16(6)
    ensures 0 <= n < Pow16(6) ==>
      var s := PrepareRawState(Number(n)).value;
      s[..2] == "0x" && (forall k :: 2 <= k < 8 ==> s[k] in HexAlphabet) && HexValue(s[2..]) == n
  {
    if n >= 0 {
      NonNegativeState(n);
    } else {
      HexLength(-n, 5);
    }
  }

  lemma NonNegativeState(n: nat)
    ensures PrepareRawState(Number(n)).Ok? <==> n < Pow16(6)
    ensures n < Pow16(6) ==>
      var s := PrepareRawState(Number(n)).value;
      s[..2] == "0x" && (forall k :: 2 <= k < 8 ==> s[k] in HexAlphabet) && HexValue(s[2..]) == n
  {
    HexLength(n, 6);
    if n < Pow16(6) {
      PaddedHexValue(n);
      assert FormatState(n)[2..] == ZeroPad(Hex(n), 6);
    }
  }

  /** Zero padding does not change the value of the hex digits. */
  lemma PaddedHexValue(n: nat)
    ensures HexValue(ZeroPad(Hex(n), 6)) == n
  {
    HexValueOfHex(n);
    if |Hex(n)| < 6 {
      LeadingZeros(Hex(n), 6 - |Hex(n)|);
    }
  }

  // ---------------------------------------------------------------- the three decoders

  /** The value of the exec and update tables; "undefined" when the code is not in the table. */
  datatype StateFlag = Flag(b: bool) | Undefined

  /** The product-type table. */
  function ProductTypeName(code: string): string {
    if code == "00" then "None"
    else if code == "01" then "Firewall"
    else if code == "02" then "AutoUpdate Settings"
    else if code == "04" then "Antivirus"
    else if code == "06" then "Windows Defender / Security Essentials"
    else if code == "08" then "Antispyware"
    else if code == "16" then "Internet Settings"
    else if code == "32" then "UserAccount Control"
    else if code == "64" then "Service"
    else "Unknown"
  }

  /** The execution-state table: off and expired are False, on and snoozed are True. */
  function ExecStateOf(code: string): StateFlag {
    if code == "00" || code == "01" then Flag(false)
    else if code == "10" || code == "11" then Flag(true)
    else Undefined
  }

  /** The update-state table: up to date is True, out of date is False. */
  function UpdateStateOf(code: string): StateFlag {
    if code == "00" then Flag(true) else if code == "01" then Flag(false) else Undefined
  }

  /** securitycenter_get_product_type: the table entry of characters [-6:-4]. */
  function ProductType(raw: WmiValue): Result<string, AvError> {
    match PrepareRawState(raw)
    case Err(e) => Err(e)
    case Ok(s) => Ok(ProductTypeName(s[|s| - 6..|s| - 4]))
  }

  /** securitycenter_get_product_exec_state: the table entry of characters [-4:-2]. */
  function ProductExecState(raw: WmiValue): Result<StateFlag, AvError> {
    match PrepareRawState(raw)
    case Err(e) => Err(e)
    case Ok(s) => Ok(ExecStateOf(s[|s| - 4..|s| - 2]))
  }

  /** securitycenter_get_product_update_state: the table entry of the last two characters. */
  function ProductUpdateState(raw: WmiValue): Result<StateFlag, AvError> {
    match PrepareRawState(raw)
    case Err(e) => Err(e)
    case Ok(s) => Ok(UpdateStateOf(s[|s| - 2..]))
  }

  /** The last `w` hex digits of `n`, with leading zeros. */
  function HexDigits(n: nat, w: nat): (r: string)
    ensures |r| == w
  {
    if w == 0 then [] else HexDigits(n / 16, w - 1) + [HexAlphabet[n % 16]]
  }

  /** `n` with its last `k` hex digits dropped, `n >> 4k`. */
  function DropHex(n: nat, k: nat): nat {
    if k == 0 then n else DropHex(n / 16, k - 1)
  }

  lemma PadStep(n: nat, w: nat)
    requires w >= 2 && n < Pow16(w)
    ensures ZeroPad(Hex(n), w) == ZeroPad(Hex(n / 16), w - 1) + [HexAlphabet[n % 16]]
  {
    HexLength(n, w);
    var d := HexAlphabet[n % 16];
    if n >= 16 {
      assert Hex(n) == Hex(n / 16) + [d];
      PadStepLong(Hex(n / 16), d, w);
    } else {
      assert n / 16 == 0 && n % 16 == n;
      assert Hex(n) == [d];
      assert Hex(0) == "0";
      PadStepShort(d, w);
    }
  }

  lemma PadStepLong(h: string, d: char, w: nat)
    requires 1 <= |h| + 1 <= w
    ensures ZeroPad(h + [d], w) == ZeroPad(h, w - 1) + [d]
  {
  }

  lemma PadStepShort(d: char, w: nat)
    requires w >= 2
    ensures ZeroPad([d], w) == ZeroPad("0", w - 1) + [d]
  {
    assert Zeros(w - 1) == Zeros(w - 2) + ['0'];
  }

  /** Padding the digits of a number that fits `w` digits gives its last `w` digits. */
  lemma {:induction false} PadIsDigits(n: nat, w: nat)
    requires w >= 1 && n < Pow16(w)
    ensures ZeroPad(Hex(n), w) == HexDigits(n, w)
  {
    if w == 1 {
      PadOneDigit(n);
    } else {
      var p := Pow16(w - 1);
      assert n / 16 < p by { assert n < 16 * p; }
      PadStep(n, w);
      PadIsDigits(n / 16, w - 1);
      assert HexDigits(n, w) == HexDigits(n / 16, w - 1) + [HexAlphabet[n % 16]];
    }
  }

  lemma PadOneDigit(n: nat)
    requires n < 16
    ensures ZeroPad(Hex(n), 1) == HexDigits(n, 1)
  {
    var c := HexAlphabet[n];
    assert n / 16 == 0 && n % 16 == n;
    assert HexDigits(n, 1) == [c];
    assert Hex(n) == [c];
  }

  /** The last `a + b` digits are the last `a` digits of `n` without its last `b`, then its
      last `b`. */
  lemma {:induction false} DigitsSplit(n: nat, a: nat, b: nat)
    ensures HexDigits(n, a + b) == HexDigits(DropHex(n, b), a) + HexDigits(n, b)
    decreases b
  {
    if b > 0 {
      DigitsSplit(n / 16, a, b - 1);
      assert HexDigits(n, a + b) == HexDigits(n / 16, a + b - 1) + [HexAlphabet[n % 16]];
    }
  }

  /** For a state from 0 to 0xffffff prepare_raw_state writes `0x` and its six last hex digits. */
  lemma StateText(n: nat)
    requires n < Pow16(6)
    ensures PrepareRawState(Number(n)) == Ok("0x" + HexDigits(n, 6))
  {
    PadIsDigits(n, 6);
    assert FormatState(n) == "0x" + HexDigits(n, 6);
  }

  /** The characters [-6:-4], [-4:-2] and [-2:] of that text are the state's three bytes. */
  lemma StateSlices(n: nat)
    ensures var s := "0x" + HexDigits(n, 6);
      && s[|s| - 6..|s| - 4] == HexDigits(DropHex(n, 4), 2)
      && s[|s| - 4..|s| - 2] == HexDigits(DropHex(n, 2), 2)
      && s[|s| - 2..] == HexDigits(n, 2)
  {
    DigitsSplit(n, 2, 4);
    DigitsSplit(n, 2, 2);
    DigitsSplit(DropHex(n, 2), 2, 2);
  }

  /** The three decoders read the three bytes of such a state, most significant first: the
      product type, ... */
  lemma TypeByte(n: nat)
    requires n < Pow16(6)
    ensures ProductType(Number(n)) == Ok(ProductTypeName(HexDigits(DropHex(n, 4), 2)))
  {
    StateText(n);
    StateSlices(n);
  }

  /** ... the execution state ... */
  lemma ExecByte(n: nat)
    requires n < Pow16(6)
    ensures ProductExecState(Number(n)) == Ok(ExecStateOf(HexDigits(DropHex(n, 2), 2)))
  {
    StateText(n);
    StateSlices(n);
  }

  /** ... and the update state. */
  lemma UpdateByte(n: nat)
    requires n < Pow16(6)
    ensures ProductUpdateState(Number(n)) == Ok(UpdateStateOf(HexDigits(n, 2)))
  {
    StateText(n);
    StateSlices(n);
  }

  /** The states the project's test suite uses: 0x040000 is an antivirus that is off and up to
      date, 0x041000 one that is on, 0x011000 a firewall that is on and 0x010000 one that is off. */
  lemma AntivirusType()
    ensures ProductType(Number(262144)) == Ok("Antivirus")
  {
    AntivirusTypeCode();
    TypeByte(0x04_00_00);
  }

  lemma AntivirusOff()
    ensures ProductExecState(Number(262144)) == Ok(Flag(false))
  {
    AntivirusExecCode();
    ExecByte(0x04_00_00);
  }

  lemma AntivirusUpToDate()
    ensures ProductUpdateState(Number(262144)) == Ok(Flag(true))
  {
    AntivirusUpdateCode();
    UpdateByte(0x04_00_00);
  }

  lemma AntivirusOn()
    ensures ProductExecState(Number(266240)) == Ok(Flag(true))
  {
    AntivirusOnExecCode();
    ExecByte(0x04_10_00);
  }

  lemma FirewallType()
    ensures ProductType(Number(69632)) == Ok("Firewall")
  {
    FirewallTypeCode();
    TypeByte(0x01_10_00);
  }

  // The bytes of those states, as the decoders' tables spell them.

  lemma AntivirusTypeCode()
    ensures HexDigits(DropHex(0x04_00_00, 4), 2) == "04"
  {
  }

  lemma AntivirusExecCode()
    ensures HexDigits(DropHex(0x04_00_00, 2), 2) == "00"
  {
  }

  lemma AntivirusUpdateCode()
    ensures HexDigits(0x04_00_00, 2) == "00"
  {
  }

  lemma AntivirusOnExecCode()
    ensures HexDigits(DropHex(0x04_10_00, 2), 2) == "10"
  {
  }

  lemma FirewallTypeCode()
    ensures HexDigits(DropHex(0x01_10_00, 4), 2) == "01"
  {
  }

  /** 307302933 needs eight hex digits and is refused. */
  lemma TooLongState()
    ensures ProductType(Number(307302933)) == Err(ValueError)
  {
    HexLength(307302933, 6);
  }

  /** A state given as its decimal text decodes exactly as the number does. */
  lemma TextState(i: int)
    ensures PrepareRawState(Text(IntText(i))) == PrepareRawState(Number(i))
  {
    ParseIntText(i);
  }

  // ---------------------------------------------------------------- name patterns

  /** One element of the simple patterns used here: a character, or an optional character (`c?`). */
  datatype Atom = Lit(c: char) | Opt(c: char)

  /** Reads a pattern made of characters, `\`-escaped characters and `?` marks. */
  function Compile(p: string): seq<Atom>
    decreases |p|
  {
    if p == [] then []
    else
      var c := if p[0] == '\\' && |p| >= 2 then p[1] else p[0];
      var rest := if p[0] == '\\' && |p| >= 2 then p[2..] else p[1..];
      if rest != [] && rest[0] == '?' then [Opt(c)] + Compile(rest[1..]) else [Lit(c)] + Compile(rest)
  }

  /** The atoms match `s` from position `i` on, ignoring case. */
  predicate MatchesAt(s: string, i: nat, atoms: seq<Atom>)
    decreases |atoms|
  {
    if atoms == [] then true
    else
      var here := i < |s| && IgnoreCaseEq(s[i], atoms[0].c) && MatchesAt(s, i + 1, atoms[1..]);
      match atoms[0]
      case Lit(_) => here
      case Opt(_) => here || MatchesAt(s, i, atoms[1..])
  }

  /** `re.search(pattern, s, re.IGNORECASE)` found a match. */
  predicate Search(s: string, atoms: seq<Atom>) {
    exists i: nat :: i <= |s| && MatchesAt(s, i, atoms)
  }

  /** No newline at the indices from `a` up to `b`. */
  predicate NoNewline(s: string, a: nat, b: nat) {
    forall k :: a <= k < b && k < |s| ==> s[k] != '\n'
  }

  /** `anti` matches at `i` and `virus` or `viral` at `j`, with no newline between (`.*`). */
  predicate AntiVirusAt(name: string, i: nat, j: nat, anti: seq<Atom>, virus: seq<Atom>, viral: seq<Atom>) {
    i + 4 <= j <= |name| && MatchesAt(name, i, anti) && NoNewline(name, i + 4, j)
    && (MatchesAt(name, j, virus) || MatchesAt(name, j, viral))
  }

  /** The name pattern `anti.*(virus|viral)|malware`; `.` does not match a newline. */
  predicate NameLooksLikeAv(name: string) {
    || Search(name, Compile("malware"))
    || exists i: nat, j: nat :: i + 4 <= j <= |name| && AntiVirusAt(name, i, j, Compile("anti"), Compile("virus"), Compile("viral"))
  }

  /** KNOWN_ANTIVIRUS_PRODUCTS_REGEX. */
  const KnownVendors: seq<string> := [
    "avast", "avira", "avg ?technologies", "bitdefender", "dr\\.?web", "eset", "f-?secure",
    "g ?data ?software", "kaspersky", "mcafee", "panda ?security", "sophos", "trend ?micro",
    "malwarebytes", "vipre", "sentinel ?one"]

  /** The vendor patterns joined with `|`: some alternative matches. */
  predicate PublisherIsVendor(publisher: string) {
    exists k :: 0 <= k < |KnownVendors| && Search(publisher, Compile(KnownVendors[k]))
  }

  lemma {:induction false} MatchesAtUpper(s: string, i: nat, atoms: seq<Atom>)
    ensures MatchesAt(UpperStr(s), i, atoms) == MatchesAt(s, i, atoms)
    decreases |atoms|
  {
    if atoms != [] {
      MatchesAtUpper(s, i + 1, atoms[1..]);
      MatchesAtUpper(s, i, atoms[1..]);
      if i < |s| {
        assert Lower(Upper(s[i])) == Lower(s[i]);
      }
    }
  }

  lemma SearchUpper(s: string, atoms: seq<Atom>)
    ensures Search(UpperStr(s), atoms) == Search(s, atoms)
  {
    forall i: nat ensures MatchesAt(UpperStr(s), i, atoms) == MatchesAt(s, i, atoms) {
      MatchesAtUpper(s, i, atoms);
    }
  }

  lemma NewlineUpper(s: string, a: nat, b: nat)
    ensures NoNewline(UpperStr(s), a, b) == NoNewline(s, a, b)
  {
    assert forall k :: 0 <= k < |s| ==> (UpperStr(s)[k] == '\n' <==> s[k] == '\n');
  }

  lemma AntiVirusUpper(s: string, i: nat, j: nat, anti: seq<Atom>, virus: seq<Atom>, viral: seq<Atom>)
    ensures AntiVirusAt(UpperStr(s), i, j, anti, virus, viral) == AntiVirusAt(s, i, j, anti, virus, viral)
  {
    MatchesAtUpper(s, i, anti);
    MatchesAtUpper(s, j, virus);
    MatchesAtUpper(s, j, viral);
    NewlineUpper(s, i + 4, j);
  }

  /** Matching ignores ASCII case: a name written in capitals classifies the same, ... */
  lemma NameIgnoresCase(s: string)
    ensures NameLooksLikeAv(UpperStr(s)) == NameLooksLikeAv(s)
  {
    var anti, virus, viral := Compile("anti"), Compile("virus"), Compile("viral");
    SearchUpper(s, Compile("malware"));
    forall i: nat, j: nat
      ensures AntiVirusAt(UpperStr(s), i, j, anti, virus, viral) == AntiVirusAt(s, i, j, anti, virus, viral)
    {
      AntiVirusUpper(s, i, j, anti, virus, viral);
    }
  }

  /** ... and so does a publisher. */
  lemma PublisherIgnoresCase(s: string)
    ensures PublisherIsVendor(UpperStr(s)) == PublisherIsVendor(s)
  {
    forall atoms: seq<Atom> ensures Search(UpperStr(s), atoms) == Search(s, atoms) {
      SearchUpper(s, atoms);
    }
  }

  // ---------------------------------------------------------------- get_installed_antivirus_software

  /** A SecurityCenter entry: the name from displayName (Null when absent or None), and the three
      state fields, None until productState is read. Its version and publisher stay None. */
  datatype ScEntry = ScEntry(name: WmiValue, enabled: Option<StateFlag>, isUpToDate: Option<StateFlag>,
                             productType: Option<string>)

  /** One returned engine: a SecurityCenter entry, or an installed program whose enabled,
      is_up_to_date and type fields are None. */
  datatype AvEngine = FromSecurityCenter(entry: ScEntry) | FromRegistry(software: Software)

  /** The entry built from one SecurityCenter row; the decoders' ValueError or TypeError escapes. */
  function SecEngine(row: Row): (r: Result<ScEntry, AvError>)
    ensures r.Ok? ==> r.value.name == (if "displayName" in row then row["displayName"] else Null)
    ensures "productState" !in row ==> r.Ok? && r.value.enabled == r.value.isUpToDate == None && r.value.productType == None
    ensures "productState" in row ==>
      (r.Ok? <==> PrepareRawState(row["productState"]).Ok?) &&
      (r.Err? ==> r.error == PrepareRawState(row["productState"]).error)
  {
    var name := if "displayName" in row then row["displayName"] else Null;
    if "productState" !in row then Ok(ScEntry(name, None, None, None))
    else
      var state := row["productState"];
      match ProductExecState(state)
      case Err(e) => Err(e)
      case Ok(enabled) =>
        match ProductUpdateState(state)
        case Err(e) => Err(e)
        case Ok(upToDate) =>
          match ProductType(state)
          case Err(e) => Err(e)
          case Ok(kind) => Ok(ScEntry(name, Some(enabled), Some(upToDate), Some(kind)))
  }

  /** The SecurityCenter loop: a TypeError ends it, keeping the entries built so far; a ValueError
      escapes from the whole call. */
  function SecCenterEngines(rows: seq<Row>): Result<seq<ScEntry>, AvError> {
    if rows == [] then Ok([])
    else
      match SecEngine(rows[0])
      case Err(TypeError) => Ok([])
      case Err(ValueError) => Err(ValueError)
      case Ok(e) =>
        match SecCenterEngines(rows[1..])
        case Err(err) => Err(err)
        case Ok(es) => Ok([e] + es)
  }

  /** What the loop gathers from the query result; None (no SecurityCenter namespace) gives []. */
  function SecCenterList(result: Option<seq<Row>>): Result<seq<ScEntry>, AvError> {
    if result.None? then Ok([]) else SecCenterEngines(result.value)
  }

  /** Whether an installed program is a candidate: its name matches the antivirus pattern, or else
      its publisher matches a vendor; a name or publisher that is not text makes re.search raise
      TypeError. */
  function IsCandidate(p: Software): Result<bool, AvError> {
    if !p.name.Str? then Err(TypeError)
    else if NameLooksLikeAv(p.name.s) then Ok(true)
    else if !p.publisher.Str? then Err(TypeError)
    else Ok(PublisherIsVendor(p.publisher.s))
  }

  /** The candidate loop over the installed programs, in order. */
  function Candidates(ps: seq<Software>): (r: Result<seq<Software>, AvError>)
    ensures r.Err? ==> r.error == TypeError
  {
    if ps == [] then Ok([])
    else
      match Candidates(ps[..|ps| - 1])
      case Err(e) => Err(e)
      case Ok(cs) =>
        match IsCandidate(ps[|ps| - 1])
        case Err(e) => Err(e)
        case Ok(b) => Ok(if b then cs + [ps[|ps| - 1]] else cs)
  }

  /** `seccenter_engine["name"] not in engine["name"]`; both must be text, or TypeError. */
  function NotIn(e: ScEntry, c: Software): Result<bool, AvError> {
    if e.name.Text? && c.name.Str? then Ok(!Contains(c.name.s, e.name.s)) else Err(TypeError)
  }

  /** The inner merge loop: `e` once for every candidate whose name does not contain e's name. */
  function MergeOne(e: ScEntry, cands: seq<Software>): (r: Result<seq<ScEntry>, AvError>)
    ensures r.Err? ==> r.error == TypeError
  {
    if cands == [] then Ok([])
    else
      match MergeOne(e, cands[..|cands| - 1])
      case Err(err) => Err(err)
      case Ok(r) =>
        match NotIn(e, cands[|cands| - 1])
        case Err(err) => Err(err)
        case Ok(b) => Ok(if b then r + [e] else r)
  }

  /** The outer merge loop over the SecurityCenter entries. */
  function Merge(sc: seq<ScEntry>, cands: seq<Software>): (r: Result<seq<ScEntry>, AvError>)
    ensures r.Err? ==> r.error == TypeError
  {
    if sc == [] then Ok([])
    else
      match Merge(sc[..|sc| - 1], cands)
      case Err(err) => Err(err)
      case Ok(r) =>
        match MergeOne(sc[|sc| - 1], cands)
        case Err(err) => Err(err)
        case Ok(more) => Ok(r + more)
  }

  /** The merge as written: without candidates the SecurityCenter list as is. */
  function MergeAsWritten(sc: seq<ScEntry>, cands: seq<Software>): Result<seq<ScEntry>, AvError> {
    if |cands| > 0 then Merge(sc, cands) else Ok(sc)
  }

  function TagSecurityCenter(es: seq<ScEntry>): (r: seq<AvEngine>)
    ensures |r| == |es| && forall k :: 0 <= k < |es| ==> r[k] == FromSecurityCenter(es[k])
  {
    if es == [] then [] else TagSecurityCenter(es[..|es| - 1]) + [FromSecurityCenter(es[|es| - 1])]
  }

  function TagRegistry(ps: seq<Software>): (r: seq<AvEngine>)
    ensures |r| == |ps| && forall k :: 0 <= k < |ps| ==> r[k] == FromRegistry(ps[k])
  {
    if ps == [] then [] else TagRegistry(ps[..|ps| - 1]) + [FromRegistry(ps[|ps| - 1])]
  }

  /** The antivirus list built from the SecurityCenter query result and the installed programs. */
  function AntivirusList(result: Option<seq<Row>>, installed: seq<Software>): Result<seq<AvEngine>, AvError> {
    match SecCenterList(result)
    case Err(e) => Err(e)
    case Ok(sc) =>
      match Candidates(installed)
      case Err(e) => Err(e)
      case Ok(cands) =>
        match MergeAsWritten(sc, cands)
        case Err(e) => Err(e)
        case Ok(merged) => Ok(TagSecurityCenter(merged) + TagRegistry(cands))
  }

  /** get_installed_antivirus_software, given the SecurityCenter query result and the registry. */
  function InstalledAntivirus(result: Option<seq<Row>>, reg: RegState): Result<seq<AvEngine>, AvError> {
    AntivirusList(result, Installed(reg))
  }

  /** `Ok(p + x)` for `Ok(x)`; an error is kept. */
  function Prepend<T>(p: seq<T>, r: Result<seq<T>, AvError>): Result<seq<T>, AvError> {
    match r
    case Ok(x) => Ok(p + x)
    case Err(e) => Err(e)
  }

  /** get_installed_antivirus_software: the SecurityCenter loop, the candidate loop over the
      installed programs, then the merge and the final concatenation. */
  method GetInstalledAntivirusSoftware(result: Option<seq<Row>>, reg: RegState) returns (r: Result<seq<AvEngine>, AvError>)
    ensures r == InstalledAntivirus(result, reg)
  {
    var seccenter := ScanSecurityCenter(result);
    if seccenter.Err? {
      return Err(seccenter.error);
    }
    var installed := GetInstalledSoftware(reg);
    var candidates := SelectCandidates(installed);
    if candidates.Err? {
      return Err(candidates.error);
    }
    var merged := MergeEngines(seccenter.value, candidates.value);
    if merged.Err? {
      return Err(merged.error);
    }
    r := Ok(TagSecurityCenter(merged.value) + TagRegistry(candidates.value));
  }

  /** The first loop: one entry per SecurityCenter row until a TypeError ends it. */
  method ScanSecurityCenter(result: Option<seq<Row>>) returns (r: Result<seq<ScEntry>, AvError>)
    ensures r == SecCenterList(result)
  {
    var seccenter: seq<ScEntry> := [];
    if result.Some? {
      var rows := result.value;
      var i := 0;
      var stopped := false;
      assert rows[0..] == rows;
      PrependTwice([], [], SecCenterEngines(rows));
      while i < |rows| && !stopped
        invariant 0 <= i <= |rows|
        invariant SecCenterEngines(rows) == if stopped then Ok(seccenter) else Prepend(seccenter, SecCenterEngines(rows[i..]))
        decreases |rows| - i, if stopped then 0 else 1
      {
        var entry := SecEngine(rows[i]);
        ScanStep(rows, i);
        match entry {
          case Err(TypeError) =>
            PrependNothing(seccenter);
            stopped := true;
          case Err(ValueError) =>
            return Err(ValueError);
          case Ok(e) =>
            PrependTwice(seccenter, [e], SecCenterEngines(rows[i + 1..]));
            seccenter := seccenter + [e];
            i := i + 1;
        }
      }
      if !stopped {
        assert rows[i..] == [];
        PrependNothing(seccenter);
      }
    }
    r := Ok(seccenter);
  }

  /** The second loop: the installed programs that look like antivirus products, in order. */
  method SelectCandidates(installed: seq<Software>) returns (r: Result<seq<Software>, AvError>)
    ensures r == Candidates(installed)
  {
    var candidates: seq<Software> := [];
    for i := 0 to |installed|
      invariant Candidates(installed[..i]) == Ok(candidates)
    {
      assert installed[..i + 1][..i] == installed[..i];
      var product := installed[i];
      if !product.name.Str? {
        CandidatesErr(installed, i + 1);
        return Err(TypeError);
      }
      if NameLooksLikeAv(product.name.s) {
        candidates := candidates + [product];
        continue;
      }
      if !product.publisher.Str? {
        CandidatesErr(installed, i + 1);
        return Err(TypeError);
      }
      if PublisherIsVendor(product.publisher.s) {
        candidates := candidates + [product];
      }
    }
    assert installed[..|installed|] == installed;
    r := Ok(candidates);
  }

  /** The merge: with candidates, the nested loops; without, the SecurityCenter list. */
  method MergeEngines(seccenter: seq<ScEntry>, candidates: seq<Software>) returns (r: Result<seq<ScEntry>, AvError>)
    ensures r == MergeAsWritten(seccenter, candidates)
  {
    if |candidates| == 0 {
      return Ok(seccenter);
    }
    var av: seq<ScEntry> := [];
    for i := 0 to |seccenter|
      invariant Merge(seccenter[..i], candidates) == Ok(av)
    {
      assert seccenter[..i + 1][..i] == seccenter[..i];
      var s := seccenter[i];
      ghost var before := av;
      assert av[|before|..] == [];
      for j := 0 to |candidates|
        invariant |before| <= |av| && av[..|before|] == before
        invariant MergeOne(s, candidates[..j]) == Ok(av[|before|..])
      {
        assert candidates[..j + 1][..j] == candidates[..j];
        var c := candidates[j];
        if !(s.name.Text? && c.name.Str?) {
          MergeOneErr(s, candidates, j + 1);
          MergeErr(seccenter, candidates, i + 1);
          return Err(TypeError);
        }
        if !Contains(c.name.s, s.name.s) {
          assert (av + [s])[|before|..] == av[|before|..] + [s];
          av := av + [s];
        }
      }
      assert candidates[..|candidates|] == candidates;
      assert seccenter[..i + 1][i] == s;
      assert av == before + av[|before|..];
    }
    assert seccenter[..|seccenter|] == seccenter;
    r := Ok(av);
  }

  lemma ScanStep(rows: seq<Row>, i: nat)
    requires i < |rows|
    ensures SecCenterEngines(rows[i..]) ==
      match SecEngine(rows[i])
      case Err(TypeError) => Ok([])
      case Err(ValueError) => Err(ValueError)
      case Ok(e) => Prepend([e], SecCenterEngines(rows[i + 1..]))
  {
    assert rows[i..][0] == rows[i] && rows[i..][1..] == rows[i + 1..];
  }

  lemma PrependNothing<T>(p: seq<T>)
    ensures Prepend(p, Ok([])) == Ok(p)
  {
    assert p + [] == p;
  }

  lemma PrependTwice<T>(a: seq<T>, b: seq<T>, r: Result<seq<T>, AvError>)
    ensures Prepend(a, Prepend(b, r)) == Prepend(a + b, r)
    ensures Prepend([], r) == r
  {
    if r.Ok? {
      assert a + (b + r.value) == (a + b) + r.value;
      assert [] + r.value == r.value;
    }
  }

  lemma {:induction false} CandidatesErr(ps: seq<Software>, i: nat)
    requires i <= |ps| && Candidates(ps[..i]).Err?
    ensures Candidates(ps) == Candidates(ps[..i])
    decreases |ps|
  {
    if i < |ps| {
      assert ps[..|ps| - 1][..i] == ps[..i];
      CandidatesErr(ps[..|ps| - 1], i);
    } else {
      assert ps[..i] == ps;
    }
  }

  lemma {:induction false} MergeOneErr(e: ScEntry, cands: seq<Software>, j: nat)
    requires j <= |cands| && MergeOne(e, cands[..j]).Err?
    ensures MergeOne(e, cands) == MergeOne(e, cands[..j])
    decreases |cands|
  {
    if j < |cands| {
      assert cands[..|cands| - 1][..j] == cands[..j];
      MergeOneErr(e, cands[..|cands| - 1], j);
    } else {
      assert cands[..j] == cands;
    }
  }

  lemma {:induction false} MergeErr(sc: seq<ScEntry>, cands: seq<Software>, i: nat)
    requires 1 <= i <= |sc| && MergeOne(sc[i - 1], cands) == Err(TypeError)
    ensures Merge(sc, cands) == Err(TypeError)
    decreases |sc|
  {
    if i < |sc| {
      assert sc[..|sc| - 1][i - 1] == sc[i - 1];
      MergeErr(sc[..|sc| - 1], cands, i);
    }
  }

  // ---------------------------------------------------------------- properties of the antivirus list

  /** The SecurityCenter entries are those of the leading rows, one per row and in row order; when
      the list is shorter than the rows, the next row is the one whose state raised TypeError. A
      ValueError comes from a row whose state is too long or not a number. */
  lemma {:induction false} SecCenterPrefix(rows: seq<Row>)
    ensures SecCenterEngines(rows).Ok? ==>
      var es := SecCenterEngines(rows).value;
      && |es| <= |rows|
      && (forall k :: 0 <= k < |es| ==> SecEngine(rows[k]) == Ok(es[k]))
      && (|es| < |rows| ==> SecEngine(rows[|es|]) == Err(TypeError))
    ensures SecCenterEngines(rows).Err? ==>
      SecCenterEngines(rows).error == ValueError &&
      exists k :: 0 <= k < |rows| && SecEngine(rows[k]) == Err(ValueError)
  {
    if rows != [] {
      SecCenterPrefix(rows[1..]);
      if SecEngine(rows[0]).Ok? && SecCenterEngines(rows[1..]).Err? {
        var k :| 0 <= k < |rows[1..]| && SecEngine(rows[1..][k]) == Err(ValueError);
        assert rows[k + 1] == rows[1..][k];
      }
      if SecEngine(rows[0]).Ok? && SecCenterEngines(rows[1..]).Ok? {
        var es := SecCenterEngines(rows[1..]).value;
        forall k | 1 <= k <= |es| ensures SecEngine(rows[k]) == Ok(([SecEngine(rows[0]).value] + es)[k]) {
          assert rows[k] == rows[1..][k - 1];
        }
        if |es| < |rows[1..]| {
          assert rows[|es| + 1] == rows[1..][|es|];
        }
      }
    }
  }

  /** Rows without productState always give an entry each. */
  lemma {:induction false} SecCenterWithoutStates(rows: seq<Row>)
    requires forall k :: 0 <= k < |rows| ==> "productState" !in rows[k]
    ensures SecCenterEngines(rows).Ok? && |SecCenterEngines(rows).value| == |rows|
  {
    if rows != [] {
      SecCenterWithoutStates(rows[1..]);
    }
  }

  /** The candidates are the installed programs the classification accepts, in order; the loop
      fails exactly when some program's name or publisher is needed but is not text. */
  lemma {:induction false} CandidatesMembers(ps: seq<Software>)
    ensures Candidates(ps).Ok? ==>
      |Candidates(ps).value| <= |ps| &&
      forall x :: x in Candidates(ps).value <==> x in ps && IsCandidate(x) == Ok(true)
    ensures Candidates(ps).Err? <==> exists k :: 0 <= k < |ps| && IsCandidate(ps[k]).Err?
  {
    if ps != [] {
      var init := ps[..|ps| - 1];
      CandidatesMembers(init);
      assert ps == init + [ps[|ps| - 1]];
      if Candidates(init).Err? {
        var k :| 0 <= k < |init| && IsCandidate(init[k]).Err?;
        assert ps[k] == init[k];
      }
      if Candidates(ps).Ok? {
        forall k | 0 <= k < |ps| ensures IsCandidate(ps[k]).Ok? {
          if k < |init| {
            assert ps[k] == init[k];
          }
        }
        forall x | x in ps && IsCandidate(x) == Ok(true) ensures x in Candidates(ps).value {
          if x != ps[|ps| - 1] {
            assert x in init;
          }
        }
      }
    }
  }

  /** Where every name involved is text: the number of candidates whose name does not contain
      the SecurityCenter entry's name. */
  function Missing(e: ScEntry, cands: seq<Software>): nat
    requires e.name.Text? && forall c :: c in cands ==> c.name.Str?
  {
    if cands == [] then 0
    else Missing(e, cands[..|cands| - 1]) + (if Contains(cands[|cands| - 1].name.s, e.name.s) then 0 else 1)
  }

  lemma {:induction false} MergeOneCount(e: ScEntry, cands: seq<Software>)
    requires e.name.Text? && forall c :: c in cands ==> c.name.Str?
    ensures MergeOne(e, cands).Ok?
    ensures forall x :: multiset(MergeOne(e, cands).value)[x] == if x == e then Missing(e, cands) else 0
  {
    if cands != [] {
      var init := cands[..|cands| - 1];
      assert forall c :: c in init ==> c in cands;
      MergeOneCount(e, init);
    }
  }

  /** `r` holds each text-named entry of `src` once per candidate whose name does not contain its
      name, counting multiplicities. */
  ghost predicate RepeatsPerMiss(r: seq<ScEntry>, src: seq<ScEntry>, cands: seq<Software>)
    requires forall c :: c in cands ==> c.name.Str?
  {
    forall x: ScEntry :: x.name.Text? ==> multiset(r)[x] == multiset(src)[x] * Missing(x, cands)
  }

  /** As written, with every name text, the merge repeats each SecurityCenter entry once per
      candidate whose name does not contain its name, counting multiplicities. */
  lemma {:induction false} MergeCounts(sc: seq<ScEntry>, cands: seq<Software>)
    requires forall e :: e in sc ==> e.name.Text?
    requires forall c :: c in cands ==> c.name.Str?
    ensures Merge(sc, cands).Ok?
    ensures RepeatsPerMiss(Merge(sc, cands).value, sc, cands)
  {
    if sc != [] {
      assert forall e :: e in sc[..|sc| - 1] ==> e in sc;
      MergeCounts(sc[..|sc| - 1], cands);
      MergeCountsStep(sc, cands);
    }
  }

  /** The step of the induction: the entries merged before the last one plus the copies of the
      last one. */
  lemma MergeCountsStep(sc: seq<ScEntry>, cands: seq<Software>)
    requires sc != [] && forall e :: e in sc ==> e.name.Text?
    requires forall c :: c in cands ==> c.name.Str?
    requires Merge(sc[..|sc| - 1], cands).Ok?
    requires RepeatsPerMiss(Merge(sc[..|sc| - 1], cands).value, sc[..|sc| - 1], cands)
    ensures Merge(sc, cands).Ok?
    ensures RepeatsPerMiss(Merge(sc, cands).value, sc, cands)
  {
    var init := sc[..|sc| - 1];
    var last := sc[|sc| - 1];
    MergeOneCount(last, cands);
    MergeSnoc(sc, cands);
    RepeatsPerMissSnoc(sc, Merge(init, cands).value, MergeOne(last, cands).value, Merge(sc, cands).value, cands);
  }

  lemma MergeSnoc(sc: seq<ScEntry>, cands: seq<Software>)
    requires sc != [] && Merge(sc[..|sc| - 1], cands).Ok? && MergeOne(sc[|sc| - 1], cands).Ok?
    ensures Merge(sc, cands) == Ok(Merge(sc[..|sc| - 1], cands).value + MergeOne(sc[|sc| - 1], cands).value)
  {
  }

  /** The counting: the entries merged so far plus the copies of the last one. */
  lemma RepeatsPerMissSnoc(sc: seq<ScEntry>, r: seq<ScEntry>, more: seq<ScEntry>, all: seq<ScEntry>, cands: seq<Software>)
    requires sc != [] && sc[|sc| - 1].name.Text? && forall c :: c in cands ==> c.name.Str?
    requires RepeatsPerMiss(r, sc[..|sc| - 1], cands)
    requires forall x :: multiset(more)[x] == if x == sc[|sc| - 1] then Missing(sc[|sc| - 1], cands) else 0
    requires all == r + more
    ensures RepeatsPerMiss(all, sc, cands)
  {
    var last := sc[|sc| - 1];
    var init := sc[..|sc| - 1];
    assert sc == init + [last];
    forall x: ScEntry | x.name.Text?
      ensures multiset(all)[x] == multiset(sc)[x] * Missing(x, cands)
    {
      assert multiset(all)[x] == multiset(r)[x] + multiset(more)[x];
      assert multiset(sc)[x] == multiset(init)[x] + (if x == last then 1 else 0);
      OneMoreCopy(multiset(init)[x], Missing(x, cands), x == last, multiset(more)[x]);
    }
  }

  /** One more occurrence of an entry brings `m` more copies of it; other entries bring none. */
  lemma OneMoreCopy(a: int, m: int, isLast: bool, b: int)
    requires b == if isLast then m else 0
    ensures a * m + b == (a + (if isLast then 1 else 0)) * m
  {
    if isLast {
      assert (a + 1) * m == a * m + m;
    }
  }

  /** With at least one candidate, an entry whose displayName was missing or None (or is not
      text) makes the merge raise TypeError. */
  lemma {:induction false} MergeNeedsNames(sc: seq<ScEntry>, cands: seq<Software>, k: nat)
    requires k < |sc| && !sc[k].name.Text? && cands != []
    ensures Merge(sc, cands) == Err(TypeError)
  {
    MergeOneNeedsName(sc[k], cands);
    MergeErr(sc, cands, k + 1);
  }

  lemma {:induction false} MergeOneNeedsName(e: ScEntry, cands: seq<Software>)
    requires !e.name.Text? && cands != []
    ensures MergeOne(e, cands) == Err(TypeError)
  {
    var init := cands[..|cands| - 1];
    if init != [] {
      MergeOneNeedsName(e, init);
    }
  }

  /** Without SecurityCenter (a server), the list is exactly the candidates from the registry. */
  lemma NoSecurityCenter(installed: seq<Software>)
    ensures Candidates(installed).Ok? ==> AntivirusList(None, installed) == Ok(TagRegistry(Candidates(installed).value))
    ensures Candidates(installed).Err? ==> AntivirusList(None, installed) == Err(TypeError)
  {
    if Candidates(installed).Ok? {
      var cands := Candidates(installed).value;
      assert MergeAsWritten([], cands) == Ok([]);
      assert TagSecurityCenter([]) + TagRegistry(cands) == TagRegistry(cands);
    }
  }

  /** Without candidates, the list is exactly the SecurityCenter entries. */
  lemma NoCandidates(result: Option<seq<Row>>, installed: seq<Software>)
    requires Candidates(installed) == Ok([])
    ensures SecCenterList(result).Ok? ==>
      AntivirusList(result, installed) == Ok(TagSecurityCenter(SecCenterList(result).value))
    ensures SecCenterList(result).Err? ==> AntivirusList(result, installed) == Err(SecCenterList(result).error)
  {
    assert TagRegistry([]) == [];
    if SecCenterList(result).Ok? {
      assert TagSecurityCenter(SecCenterList(result).value) + [] == TagSecurityCenter(SecCenterList(result).value);
    }
  }

  // ---------------------------------------------------------------- the merge as evidently intended

  /** Whether a SecurityCenter entry is kept: its name is contained in no candidate's name. */
  function KeepEntry(e: ScEntry, cands: seq<Software>): Result<bool, AvError> {
    if !e.name.Text? || exists c :: c in cands && !c.name.Str? then Err(TypeError)
    else Ok(forall c :: c in cands ==> !Contains(c.name.s, e.name.s))
  }

  /** The merge the comment asks for: each SecurityCenter entry added once, unless a registry
      candidate already names it. */
  function MergeOnce(sc: seq<ScEntry>, cands: seq<Software>): Result<seq<ScEntry>, AvError> {
    if |cands| == 0 then Ok(sc)
    else if sc == [] then Ok([])
    else
      match MergeOnce(sc[..|sc| - 1], cands)
      case Err(err) => Err(err)
      case Ok(r) =>
        match KeepEntry(sc[|sc| - 1], cands)
        case Err(err) => Err(err)
        case Ok(keep) => Ok(if keep then r + [sc[|sc| - 1]] else r)
  }

  /** One SecurityCenter entry and two candidates that do not name it: as written the entry is
      listed twice. */
  lemma MergeDuplicates()
    ensures var e := ScEntry(Text("Windows Defender"), None, None, None);
      var avast := Software(Str("Avast"), Str("23.1"), Str("Avast Software"));
      var eset := Software(Str("ESET"), Str("16.0"), Str("ESET"));
      MergeAsWritten([e], [avast, eset]) == Ok([e, e]) && MergeOnce([e], [avast, eset]) == Ok([e])
  {
    var e := ScEntry(Text("Windows Defender"), None, None, None);
    var avast := Software(Str("Avast"), Str("23.1"), Str("Avast Software"));
    var eset := Software(Str("ESET"), Str("16.0"), Str("ESET"));
    assert !Contains("Avast", "Windows Defender") && !Contains("ESET", "Windows Defender");
    assert [avast, eset][..1] == [avast] && [avast][..0] == [];
    assert NotIn(e, avast) == Ok(true) && NotIn(e, eset) == Ok(true);
    assert MergeOne(e, []) == Ok([]);
    assert [] + [e] == [e];
    assert MergeOne(e, [avast]) == Ok([e]);
    assert [e] + [e] == [e, e];
    assert MergeOne(e, [avast, eset]) == Ok([e, e]);
    assert [e][..0] == [];
    assert KeepEntry(e, [avast, eset]) == Ok(true);
    assert Merge([e], [avast, eset]) == Ok([] + [e, e]);
    assert MergeOnce([], [avast, eset]) == Ok([]);
    assert MergeOnce([e], [avast, eset]) == Ok([] + [e]);
    assert [] + [e, e] == [e, e] && [] + [e] == [e];
    assert MergeAsWritten([e], [avast, eset]) == Ok([e, e]);
  }

  /** With every name text, the intended merge keeps each entry exactly as often as it occurs when
      no candidate names it, and drops it otherwise: it never repeats an entry. */
  lemma {:induction false} MergeOnceCounts(sc: seq<ScEntry>, cands: seq<Software>)
    requires forall e :: e in sc ==> e.name.Text?
    requires forall c :: c in cands ==> c.name.Str?
    ensures MergeOnce(sc, cands).Ok?
    ensures forall x: ScEntry :: x.name.Text? ==>
      multiset(MergeOnce(sc, cands).value)[x] ==
        if forall c :: c in cands ==> !Contains(c.name.s, x.name.s) then multiset(sc)[x] else 0
  {
    if |cands| > 0 && sc != [] {
      var init := sc[..|sc| - 1];
      var last := sc[|sc| - 1];
      assert forall e :: e in init ==> e in sc;
      MergeOnceCounts(init, cands);
      assert sc == init + [last];
    }
  }

  /** With a single candidate the code as written already does what is intended. */
  lemma {:induction false} MergeOnceSingle(sc: seq<ScEntry>, c: Software)
    requires c.name.Str?
    ensures MergeAsWritten(sc, [c]) == MergeOnce(sc, [c])
  {
    if sc != [] {
      var last := sc[|sc| - 1];
      MergeOnceSingle(sc[..|sc| - 1], c);
      assert [c][..0] == [];
      assert MergeOne(last, []) == Ok([]);
      assert [] + [last] == [last];
      var init := MergeOnce(sc[..|sc| - 1], [c]);
      if init.Ok? {
        assert init.value + [] == init.value;
      }
      if last.name.Text? {
        assert NotIn(last, c) == Ok(!Contains(c.name.s, last.name.s));
        assert KeepEntry(last, [c]) == Ok(!Contains(c.name.s, last.name.s));
        assert MergeOne(last, [c]) == Ok(if !Contains(c.name.s, last.name.s) then [last] else []);
      } else {
        assert MergeOne(last, [c]) == Err(TypeError);
      }
    }
  }
}
