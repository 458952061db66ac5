// windows_tools/installed_software: the programs listed under the Uninstall keys of both hives
// and both architecture views, renamed to name/version/publisher, blank entries dropped.
module InstalledSoftware {
  import opened Wrappers
  import opened Registry

  const UninstallPath: seq<string> := ["SOFTWARE", "Microsoft", "Windows", "CurrentVersion", "Uninstall"]

  /** The values read from each uninstall entry. */
  const WantedNames: seq<string> := ["DisplayName", "Publisher", "DisplayVersion"]

  /** One program: the dict with exactly the keys name, version and publisher. */
  datatype Software = Software(name: Value, version: Value, publisher: Value)

  /** The entry `{"name": "", "version": "", "publisher": ""}` that the final filter removes. */
  const Blank: Software := Software(Str(""), Str(""), Str(""))

  /** `entry.pop(key)`, with "" when the KeyError handler runs. */
  function Popped(entry: map<string, Value>, key: string): Value {
    if key in entry then entry[key] else Str("")
  }

  /** The renaming applied to one record. */
  function Renamed(entry: map<string, Value>): Software {
    Software(Popped(entry, "DisplayName"), Popped(entry, "DisplayVersion"), Popped(entry, "Publisher"))
  }

  function UninstallKey(hive: Hive): KeyRef {
    KeyRef(hive, UninstallPath)
  }

  /** The records of both get_values calls, HKLM first; a call that raised contributes nothing. */
  function RawEntries(reg: RegState): seq<map<string, Value>> {
    OrEmpty(LookupValues(reg, UninstallKey(HKEY_LOCAL_MACHINE), WantedNames, Both, true))
    + OrEmpty(LookupValues(reg, UninstallKey(HKEY_CURRENT_USER), WantedNames, Both, true))
  }

  /** The final list comprehension: the blank entries removed, the rest kept in order. */
  function WithoutBlank(s: seq<Software>): (r: seq<Software>)
    ensures |r| <= |s|
    ensures forall x :: x in r <==> x in s && x != Blank
  {
    if s == [] then [] else (if s[0] == Blank then [] else [s[0]]) + WithoutBlank(s[1..])
  }

  function AllRenamed(raw: seq<map<string, Value>>): (r: seq<Software>)
    ensures |r| == |raw|
  {
    if raw == [] then [] else AllRenamed(raw[..|raw| - 1]) + [Renamed(raw[|raw| - 1])]
  }

  /** What get_installed_software returns. */
  function Installed(reg: RegState): seq<Software> {
    WithoutBlank(AllRenamed(RawEntries(reg)))
  }

  /** get_installed_software: both get_values calls, the renaming loop, then the filter. */
  method GetInstalledSoftware(reg: RegState) returns (r: seq<Software>)
    ensures r == Installed(reg)
  {
    var software: seq<map<string, Value>> := [];
    var machine := GetValues(reg, UninstallKey(HKEY_LOCAL_MACHINE), WantedNames, Both, true);
    if machine.Some? {
      software := software + machine.value;
    }
    assert software == OrEmpty(machine);
    var user := GetValues(reg, UninstallKey(HKEY_CURRENT_USER), WantedNames, Both, true);
    if user.Some? {
      software := software + user.value;
    }
    assert software == RawEntries(reg);
    var renamed := RenameAll(software);
    r := WithoutBlank(renamed);
  }

  /** The loop mapping DisplayName, DisplayVersion and Publisher to name, version and publisher. */
  method RenameAll(software: seq<map<string, Value>>) returns (renamed: seq<Software>)
    ensures renamed == AllRenamed(software)
  {
    renamed := [];
    for i := 0 to |software|
      invariant renamed == AllRenamed(software[..i])
    {
      var entry := software[i];
      var name := if "DisplayName" in entry then entry["DisplayName"] else Str("");
      var version := if "DisplayVersion" in entry then entry["DisplayVersion"] else Str("");
      var publisher := if "Publisher" in entry then entry["Publisher"] else Str("");
      renamed := renamed + [Software(name, version, publisher)];
      assert software[..i + 1][..i] == software[..i];
    }
    assert software[..|software|] == software;
  }

  /** The list gathers, in this order, the uninstall entries of HKLM's 64-bit and 32-bit views and
      then of HKCU's, a view without the key contributing nothing. */
  lemma RawEntriesOrder(reg: RegState)
    ensures RawEntries(reg)
      == OrEmpty(ValuesIn(reg.view64, UninstallKey(HKEY_LOCAL_MACHINE), WantedNames))
       + OrEmpty(ValuesIn(reg.view32, UninstallKey(HKEY_LOCAL_MACHINE), WantedNames))
       + OrEmpty(ValuesIn(reg.view64, UninstallKey(HKEY_CURRENT_USER), WantedNames))
       + OrEmpty(ValuesIn(reg.view32, UninstallKey(HKEY_CURRENT_USER), WantedNames))
  {
    ValuesCombined(reg, UninstallKey(HKEY_LOCAL_MACHINE), WantedNames);
    ValuesCombined(reg, UninstallKey(HKEY_CURRENT_USER), WantedNames);
  }

  lemma {:induction false} AllRenamedAt(raw: seq<map<string, Value>>, i: int)
    requires 0 <= i < |raw|
    ensures AllRenamed(raw)[i] == Renamed(raw[i])
    decreases |raw|
  {
    if i < |raw| - 1 {
      AllRenamedAt(raw[..|raw| - 1], i);
    }
  }

  /** An entry is returned exactly when some uninstall record renames to it and it is not blank;
      its name, version and publisher are that record's DisplayName, DisplayVersion and Publisher,
      "" where the record lacks one. */
  lemma InstalledEntries(reg: RegState, x: Software)
    ensures x in Installed(reg) <==>
      x != Blank && exists i :: 0 <= i < |RawEntries(reg)| && x == Renamed(RawEntries(reg)[i])
  {
    var raw := RawEntries(reg);
    var renamed := AllRenamed(raw);
    if x in renamed {
      var i :| 0 <= i < |renamed| && renamed[i] == x;
      AllRenamedAt(raw, i);
    }
    if exists i :: 0 <= i < |raw| && x == Renamed(raw[i]) {
      var i :| 0 <= i < |raw| && x == Renamed(raw[i]);
      AllRenamedAt(raw, i);
      assert renamed[i] == x;
    }
  }

  /** A record without any of the three values becomes blank and is dropped; one whose DisplayName
      is a non-empty string is always kept, under that name. */
  lemma RenamedBlank(entry: map<string, Value>)
    ensures entry.Keys !! {"DisplayName", "DisplayVersion", "Publisher"} ==> Renamed(entry) == Blank
    ensures "DisplayName" in entry && entry["DisplayName"] != Str("") ==>
      Renamed(entry) != Blank && Renamed(entry).name == entry["DisplayName"]
  {
  }
}
