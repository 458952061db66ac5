// windows_tools/office: which Microsoft Office is installed, from the Word version in use, the
// Office keys of the registry and the Click-to-Run product ids.
module Office {
  import opened Wrappers
  import opened Text
  import opened Registry

  /** KNOWN_VERSIONS, newest first: each entry is the major version and the Office name. Its key
      in the dict is the version as float text (KeyText). */
  const KnownVersions: seq<(int, string)> := [
    (16, "2016/2019/O365"), (15, "2013"), (14, "2010"), (12, "2007"), (11, "2003"),
    (10, "2002"), (9, "2000"), (8, "97"), (7, "95")]

  /** How Python writes the float of an integral version: "16.0". */
  function KeyText(n: int): string {
    IntText(n) + ".0"
  }

  /** `KNOWN_VERSIONS[key]`, None for the KeyError. */
  function KnownName(key: string): Option<string> {
    KnownNameFrom(key, 0)
  }

  function KnownNameFrom(key: string, i: nat): Option<string>
    requires i <= |KnownVersions|
    decreases |KnownVersions| + |key| - i
  {
    if i == |KnownVersions| then None
    else if KeyText(KnownVersions[i].0) == key then Some(KnownVersions[i].1)
    else KnownNameFrom(key, i + 1)
  }

  /** A key that is none of the entries' misses. */
  lemma {:induction false} KnownNameMisses(key: string, j: nat)
    requires j <= |KnownVersions|
    requires forall k :: j <= k < |KnownVersions| ==> KeyText(KnownVersions[k].0) != key
    ensures KnownNameFrom(key, j).None?
    decreases |KnownVersions| - j
  {
    if j < |KnownVersions| {
      KnownNameMisses(key, j + 1);
    }
  }

  // ---------------------------------------------------------------- _get_used_word_version

  const WordCurVer: KeyRef := KeyRef(HKEY_CLASSES_ROOT, ["Word.Application", "CurVer"])

  /** `int(word_ver.split('.')[2])` for the default value of CurVer; None for a missing value
      (FileNotFoundError, then AttributeError on None), a value that is not text, fewer than three
      fields (IndexError) or a third field that is not an integer (ValueError). */
  function UsedWordVersion(reg: RegState): (r: Option<int>)
    ensures (var v := LookupValue(reg, WordCurVer, "", Default);
             r.Some? ==> v.Some? && v.value.Str? && |Split(v.value.s, '.')| >= 3
                         && r == ParseInt(Split(v.value.s, '.')[2]))
  {
    match LookupValue(reg, WordCurVer, "", Default)
    case Some(Str(wordVer)) =>
      var parts := Split(wordVer, '.');
      if |parts| >= 3 then ParseInt(parts[2]) else None
    case _ => None
  }

  /** A ProgID such as "Word.Application.16" gives 16. */
  lemma WordVersionOfProgId(reg: RegState, a: string, b: string, n: int)
    requires '.' !in a && '.' !in b
    requires LookupValue(reg, WordCurVer, "", Default) == Some(Str(a + "." + b + "." + IntText(n)))
    ensures UsedWordVersion(reg) == Some(n)
  {
    var t := IntText(n);
    NoDotInIntText(n);
    SplitAfter(b, t, '.');
    SplitAfter(a, b + "." + t, '.');
    assert a + "." + b + "." + t == a + ['.'] + (b + ['.'] + t);
    SplitOfDotless(t);
    ParseIntText(n);
  }


  // ---------------------------------------------------------------- _get_installed_office_version

  /** What _get_installed_office_version finds: the KNOWN_VERSIONS key KeyText(version) (kept as
      its number, which is what `float()` makes of it) and whether ClickToRunStore is present. */
  datatype Installed = Installed(version: int, isClickAndRun: bool)

  function OfficeKey(version: int): KeyRef {
    KeyRef(HKEY_LOCAL_MACHINE, ["SOFTWARE", "Microsoft", "Office", KeyText(version)])
  }

  /** `get_keys(..., recursion_level=2, arch=768, combine=True)`, which does not raise. */
  function OfficeTree(reg: RegState, version: int): map<string, Entry> {
    KeysOr(LookupKeys(reg, OfficeKey(version), Both, 2, None, true))
  }

  /** The loop over KNOWN_VERSIONS from entry `i` on, where `tree` gives the key tree read for a
      version: the first version whose tree holds Word, with whether it also holds
      ClickToRunStore. */
  function InstalledFrom(tree: int -> map<string, Entry>, i: nat): Option<Installed>
    requires i <= |KnownVersions|
    decreases |KnownVersions| - i
  {
    if i == |KnownVersions| then None
    else
      var officeKeys := tree(KnownVersions[i].0);
      var isClickAndRun := "ClickToRunStore" in officeKeys;
      if "Word" in officeKeys then Some(Installed(KnownVersions[i].0, isClickAndRun))
      else InstalledFrom(tree, i + 1)
  }

  /** _get_installed_office_version; None stands for `(None, None)`. */
  function InstalledOfficeVersion(reg: RegState): Option<Installed> {
    InstalledFrom(v => OfficeTree(reg, v), 0)
  }

  /** The search finds nothing exactly when no known version has Word; otherwise it reports the
      newest one that has, with whether that one has ClickToRunStore. */
  lemma {:induction false} InstalledFromMeaning(tree: int -> map<string, Entry>, i: nat)
    requires i <= |KnownVersions|
    ensures InstalledFrom(tree, i).None? <==> forall j :: i <= j < |KnownVersions| ==> "Word" !in tree(KnownVersions[j].0)
    ensures InstalledFrom(tree, i).Some? ==>
      exists j :: (i <= j < |KnownVersions|
                   && (forall j' :: i <= j' < j ==> "Word" !in tree(KnownVersions[j'].0))
                   && "Word" in tree(KnownVersions[j].0)
                   && InstalledFrom(tree, i).value
                      == Installed(KnownVersions[j].0, "ClickToRunStore" in tree(KnownVersions[j].0)))
    decreases |KnownVersions| - i
  {
    if i < |KnownVersions| {
      InstalledFromMeaning(tree, i + 1);
    }
  }

  /** The installed version is the newest known one whose key tree, read from both views, has a
      Word entry. */
  lemma InstalledIsNewestWithWord(reg: RegState)
    ensures InstalledOfficeVersion(reg).None? <==> forall j :: 0 <= j < |KnownVersions| ==> "Word" !in OfficeTree(reg, KnownVersions[j].0)
    ensures InstalledOfficeVersion(reg).Some? ==>
      exists j :: (0 <= j < |KnownVersions|
                   && (forall j' :: 0 <= j' < j ==> "Word" !in OfficeTree(reg, KnownVersions[j'].0))
                   && "Word" in OfficeTree(reg, KnownVersions[j].0)
                   && InstalledOfficeVersion(reg).value
                      == Installed(KnownVersions[j].0, "ClickToRunStore" in OfficeTree(reg, KnownVersions[j].0)))
  {
    InstalledFromMeaning(v => OfficeTree(reg, v), 0);
  }

  // ---------------------------------------------------------------- get_office_version

  const ClickToRunConfiguration: KeyRef := KeyRef(HKEY_LOCAL_MACHINE, ["Software", "Microsoft", "Office", "ClickToRun", "Configuration"])

  /** _get_office_click_and_run_ident: the ProductReleaseIds value of either view, or None. */
  function ClickAndRunIdent(reg: RegState): Option<Value> {
    LookupValue(reg, ClickToRunConfiguration, "ProductReleaseIds", Both)
  }

  /** The version get_office_version settles on (`float(office_version)`, integral here): the Word
      version in use when there is one, else the installed one. */
  function ChosenVersion(wordVersion: Option<int>, installed: Option<Installed>): (r: Option<int>)
    ensures wordVersion.Some? ==> r == wordVersion
    ensures wordVersion.None? && installed.Some? ==> r == Some(installed.value.version)
    ensures r.None? <==> wordVersion.None? && installed.None?
  {
    if wordVersion.Some? then wordVersion
    else if installed.Some? then Some(installed.value.version)
    else None
  }

  /** The inner _get_office_version, as written: below 16 it looks up `'{}.0'.format(version)`,
      i.e. "15.0.0", then the 16 rule, else "Unknown: <version>". */
  function OfficeName(version: Option<int>, ident: Option<Value>): (r: Option<string>)
    ensures r.None? <==> version.None?
  {
    match version
    case None => None
    case Some(v) =>
      var known := if v < 16 then KnownName(KeyText(v) + ".0") else None;
      if known.Some? then known
      else if v == 16 then Some(Office16Name(ident))
      else Some("Unknown: " + KeyText(v))
  }

  /** The Click-to-Run product ids tell 2016, 2019 and O365 apart, in that order. */
  function Office16Name(ident: Option<Value>): string {
    if ident.Some? && ident.value.Str? then
      var s := ident.value.s;
      if Contains(s, "2016") then "2016"
      else if Contains(s, "2019") then "2019"
      else if Contains(s, "O365") then "O365"
      else "2016/2019/O365"
    else "2016/2019/O365"
  }

  /** The suffix: ClickAndRun when the ident is text or the installed version has ClickToRunStore. */
  function Suffix(ident: Option<Value>, installed: Option<Installed>): Option<string> {
    if (ident.Some? && ident.value.Str?) || (installed.Some? && installed.value.isClickAndRun) then Some("ClickAndRun")
    else None
  }

  /** get_office_version: the Office name and the Click-to-Run suffix. */
  function GetOfficeVersion(reg: RegState): (Option<string>, Option<string>) {
    var installed := InstalledOfficeVersion(reg);
    var version := ChosenVersion(UsedWordVersion(reg), installed);
    var ident := ClickAndRunIdent(reg);
    (OfficeName(version, ident), Suffix(ident, installed))
  }

  // ---------------------------------------------------------------- properties

  /** There is a name unless neither a Word version nor an installed version is found. */
  lemma GetOfficeVersionNamed(reg: RegState)
    ensures GetOfficeVersion(reg).0.None? <==> UsedWordVersion(reg).None? && InstalledOfficeVersion(reg).None?
  {
  }

  /** The suffix is ClickAndRun exactly when the product ids are text or ClickToRunStore was
      found, and None otherwise. */
  lemma GetOfficeVersionSuffix(reg: RegState)
    ensures GetOfficeVersion(reg).1 == Some("ClickAndRun") <==>
      || (ClickAndRunIdent(reg).Some? && ClickAndRunIdent(reg).value.Str?)
      || (InstalledOfficeVersion(reg).Some? && InstalledOfficeVersion(reg).value.isClickAndRun)
    ensures GetOfficeVersion(reg).1 != Some("ClickAndRun") ==> GetOfficeVersion(reg).1.None?
  {
  }

  /** No key of KNOWN_VERSIONS has two dots, so the lookup of `'{}.0'.format(version)` always
      misses and every version below 16 is reported as unknown. */
  lemma KeyWithTwoDotsMisses(n: int)
    ensures KnownName(KeyText(n) + ".0").None?
  {
    forall k | 0 <= k < |KnownVersions|
      ensures KeyText(KnownVersions[k].0) != KeyText(n) + ".0"
    {
      NotTwoDots(KnownVersions[k].0, n);
    }
    KnownNameMisses(KeyText(n) + ".0", 0);
  }

  lemma NotTwoDots(m: int, n: int)
    ensures KeyText(m) != KeyText(n) + ".0"
  {
    if KeyText(m) == KeyText(n) + ".0" {
      assert IntText(m) + ".0" == (IntText(n) + ".0") + ".0";
      assert IntText(m) == IntText(n) + ".0" by {
        assert (IntText(m) + ".0")[..|IntText(m)|] == IntText(m);
      }
      NoDotInIntText(m);
      assert false;
    }
  }

  lemma OldVersionIsUnknown(n: int, ident: Option<Value>)
    requires n < 16
    ensures OfficeName(Some(n), ident) == Some("Unknown: " + KeyText(n))
  {
    KeyWithTwoDotsMisses(n);
  }

  /** Office 2013 is reported as "Unknown: 15.0". */
  lemma Office2013AsWritten(ident: Option<Value>)
    ensures OfficeName(Some(15), ident) == Some("Unknown: 15.0")
  {
    assert NatText(1) == "1" && DigitChar(5) == '5';
    assert IntText(15) == "15";
    assert KeyText(15) == "15.0";
    OldVersionIsUnknown(15, ident);
    assert "Unknown: " + KeyText(15) == "Unknown: 15.0";
  }

  /** The inner function as evidently intended: the lookup with `'{}'.format(version)`, which
      gives the name of every known version below 16. */
  function OfficeNameIntended(version: Option<int>, ident: Option<Value>): Option<string> {
    match version
    case None => None
    case Some(v) =>
      var known := if v < 16 then KnownName(KeyText(v)) else None;
      if known.Some? then known
      else if v == 16 then Some(Office16Name(ident))
      else Some("Unknown: " + KeyText(v))
  }

  lemma KeyTextInjective(a: int, b: int)
    ensures KeyText(a) == KeyText(b) ==> a == b
  {
    if KeyText(a) == KeyText(b) {
      ParseIntText(a);
      ParseIntText(b);
      assert IntText(a) == KeyText(a)[..|KeyText(a)| - 2];
    }
  }

  /** The known versions are listed newest first, so no two are the same. */
  lemma VersionsDecrease(a: nat, b: nat)
    requires a < b < |KnownVersions|
    ensures KnownVersions[a].0 > KnownVersions[b].0
  {
    var vs := seq(|KnownVersions|, k requires 0 <= k < |KnownVersions| => KnownVersions[k].0);
    assert vs == [16, 15, 14, 12, 11, 10, 9, 8, 7];
    assert vs[a] == KnownVersions[a].0 && vs[b] == KnownVersions[b].0;
  }

  /** The lookup from entry `j` on finds entry `i` by its own key: the versions are distinct. */
  lemma {:induction false} KnownNameFinds(i: nat, j: nat)
    requires j <= i < |KnownVersions|
    ensures KnownNameFrom(KeyText(KnownVersions[i].0), j) == Some(KnownVersions[i].1)
    decreases i - j
  {
    if j < i {
      VersionsDecrease(j, i);
      KeyTextInjective(KnownVersions[j].0, KnownVersions[i].0);
      KnownNameFinds(i, j + 1);
    }
  }

  /** Every known version below 16 gets its Office name from the intended lookup. */
  lemma IntendedNamesKnown(i: nat, ident: Option<Value>)
    requires i < |KnownVersions| && KnownVersions[i].0 < 16
    ensures OfficeNameIntended(Some(KnownVersions[i].0), ident) == Some(KnownVersions[i].1)
  {
    KnownNameFinds(i, 0);
  }

  /** Version 16 is told apart by the product ids, 2016 first, then 2019, then O365. */
  lemma Office16Priority(ident: Option<Value>)
    ensures OfficeName(Some(16), ident) == Some(Office16Name(ident))
    ensures ident.Some? && ident.value.Str? && Contains(ident.value.s, "2016") ==> Office16Name(ident) == "2016"
    ensures ident.Some? && ident.value.Str? && !Contains(ident.value.s, "2016") && Contains(ident.value.s, "2019") ==> Office16Name(ident) == "2019"
    ensures ident.None? || !ident.value.Str? ==> Office16Name(ident) == "2016/2019/O365"
  {
  }

  /** The Word version in use decides over the installed one. */
  lemma WordVersionWins(reg: RegState)
    requires UsedWordVersion(reg).Some?
    ensures GetOfficeVersion(reg).0 == OfficeName(UsedWordVersion(reg), ClickAndRunIdent(reg))
  {
  }
}
