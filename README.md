# windows_tools, modelled in Dafny

windows_tools is a set of Python helpers over Windows facilities: the registry, WMI, win32security,
the Windows Update agent, signtool.exe and PowerShell. This project models the logic the package
runs on top of those facilities. Every answer the operating system gives becomes a value passed in:

- the registry is one finite tree per architecture view (64-bit and 32-bit);
- a WMI query result is an optional sequence of rows;
- the environment is a map from names to texts;
- file existence is a set of paths.

One Dafny file per package module:

| file | models |
|---|---|
| Registry.dfy | `get_value`, `get_values`, `get_keys` (the arch-768 policy, the filtered recursive walk), `delete_sub_key` as a recursive method over a mutable view |
| InstalledSoftware.dfy | `get_installed_software`: hive concatenation, key renaming, removal of blank entries |
| Updates.dfy | `get_windows_updates`: code tables, KB extraction, first-seen filtering of repeated updates |
| Antivirus.dfy | `prepare_raw_state`, the three SecurityCenter state decoders, `get_installed_antivirus_software` |
| ProductKey.dfy | `decode_key` (base-24 decoding in a working list), the license channel, the keys from WMI and the registry |
| WmiQueries.dfy | `get_wmi_timezone_bias`, `utc_datetime_to_cim_timestamp`, `cim_timestamp_to_datetime` (strptime, timedelta and fixed offsets included) |
| Virtualization.dfy | `check_for_virtualization` |
| LogicalDisks.dfy | the win32api, psutil and drive-probe enumerations and the fallback chain of `get_logical_disks` |
| Server.dfy | `is_windows_server`, `is_rds_server` |
| Office.dfy | `_get_used_word_version`, `_get_installed_office_version`, `get_office_version` |
| FileUtils.dfy | `easy_permissions` and the entry and flag assembly of `set_acls` |
| Signing.dfy | `SignTool.__init__` and `SignTool.sign` |
| PowerShell.dfy | `PowerShellRunner.get_version`, `run_command`, `run_script` |
| Bitness.dfy | `is_64bit`, `is_64bit_executable` |
| WindowsFirewall.dfy | `is_firewall_active` |
| Wrappers.dfy, Text.dfy, Bits.dfy | Option and Result; the Python string operations used (`upper`, `split`, `rstrip`, `int`, `str`); two's-complement bit operations |

Exceptions are modelled as values: an `Option` or `Result` whose error side names the exception.
No precondition excludes an input the Python code handles. Pywin32 exposes its constants as signed
32-bit integers (GENERIC_READ is -2147483648), and the model uses those values and Python's
two's-complement `|` on them.

Where the code loops or updates state, the model is imperative. Examples:

- `decode_key` rewrites its working list in place;
- `delete_sub_key` deletes in a loop from a class holding the registry view;
- `set_acls` appends one shared dict over and over;
- `sign` builds its command line by `+=`;
- the registry, update, disk and antivirus loops are `while` and `for` loops.

Each of these methods is proved against a specification function, and the properties are proved
about that function.

## Model

| member | source | states |
|---|---|---|
| Bitness.Is64BitPrecedence | windows_tools/bitness/__init__.py:41-56 | PROCESSOR_ARCHITEW6432 alone makes the answer true; otherwise PROCESSOR_ARCHITECTURE decides alone, true iff it ends with "64" or "64T"; only with both absent does PROGRAMFILES(X86) decide; no other variable matters |
| Bitness.KnownArchitectures | windows_tools/bitness/__init__.py:51-55 | AMD64, IA64, ARM64 and EM64T are 64-bit and x86 is not |
| Bitness.Is64BitExecutable | windows_tools/bitness/__init__.py:59-64 | None exactly when win32file is missing; true exactly when the binary type is 6 |
| WindowsFirewall.IsFirewallActive | windows_tools/windows_firewall/__init__.py:27-60 | true iff the StandardProfile EnableFirewall value is the integer 1: the three reads use the same key, a missing value counts as 0 |
| WindowsFirewall.InactiveReads | windows_tools/windows_firewall/__init__.py:39-60 | a missing value, 0 and the text "1" all give false |
| Server.IsWindowsServer | windows_tools/server/__init__.py:28-39 | None exactly when the ProductType read raised; true iff ProductType is 2 or 3 |
| Server.WorkstationIsNotServer | windows_tools/server/__init__.py:33-37 | ProductType 1, or the text "3", is not a server |
| Server.IsRdsServer | windows_tools/server/__init__.py:42-87 | the OSProductSuite bits decide when one of them is set; then the ServerFeature(ID=18) query decides by emptiness; then the running TerminalService rows; None when all three fail |
| Server.SuiteMasks | windows_tools/server/__init__.py:64-68 | `n & 256` and `n & 16` are non-zero exactly when bits 8 and 4 of n are set, for every integer n |
| Server.AdminModeIsNotRds | windows_tools/server/__init__.py:61-65 | OSProductSuite 276 gives false whatever the other queries answer |
| Server.TerminalServicesIsRds | windows_tools/server/__init__.py:67-68 | OSProductSuite 16 gives true whatever the other queries answer |
| Registry.FindValue | windows_tools/registry/__init__.py:49 | QueryValueEx finds a value iff some value of the key has that name, and returns that value's data |
| Registry.GetValue | windows_tools/registry/__init__.py:33-64 | with arch 768 the 64-bit view's value when that lookup succeeds, else the 32-bit view's; FileNotFoundError (None) only when both fail; any other arch reads the one view it reaches |
| Registry.ReadRecord | windows_tools/registry/__init__.py:87-95 | the loop over the requested names builds exactly the record of the subkey: each requested name the subkey holds, mapped to its value, and nothing else (with Registry.RecordContents) |
| Registry.ReadValues | windows_tools/registry/__init__.py:79-99 | one dict per subkey, in enumeration order, holding only requested names; None (FileNotFoundError) when the key or a listed subkey cannot be opened |
| Registry.GetValues | windows_tools/registry/__init__.py:67-114 | with arch 768 it never raises: combined, the 64-bit list followed by the 32-bit list (a view that cannot be opened contributes nothing); not combined, the first view that opens, else `[]` |
| Registry.ValuesCombined | windows_tools/registry/__init__.py:102-112 | get_values with arch 768 and combine is the 64-bit records followed by the 32-bit records |
| Registry.RecordContents | windows_tools/registry/__init__.py:87-95 | a record holds a name iff it was requested and the subkey has it, with the subkey's data; absent names are left out |
| Registry.Filtered | windows_tools/registry/__init__.py:145-150 | the value loop keeps at most the values it was given |
| Registry.ReadOwnValues | windows_tools/registry/__init__.py:144-151 | the loop over the key's values keeps them in enumeration order, exactly those the filter names, or all of them without a filter (with Registry.FilteredMembers) |
| Registry.ReadKeys | windows_tools/registry/__init__.py:134-168 | the inner _get_keys: None when the key cannot be opened; otherwise the filtered values under "" and, while the level is positive, each subkey that opens under its name, one level down |
| Registry.GetKeys | windows_tools/registry/__init__.py:120-183 | with arch 768 and combine, the 64-bit dict updated with the 32-bit one; not combined, the first view that opens, else `{}`; any other arch reads the one view it reaches |
| Registry.FilteredMembers | windows_tools/registry/__init__.py:145-150 | a value is kept iff the filter is not a list or lists its name |
| Registry.FilteredKeepsAll | windows_tools/registry/__init__.py:145-150 | without a list filter every value is kept, in enumeration order |
| Registry.SubEntriesContents | windows_tools/registry/__init__.py:154-163 | the subkey loop adds exactly the subkeys that open, each with its own tree one level down, and skips those that raise |
| Registry.KeysShape | windows_tools/registry/__init__.py:134-165 | fails only when the key is missing; a subkey appears only while the level is positive and only if it opens; "" holds the filtered values exactly when at least one survives |
| Registry.KeysCombinedPrecedence | windows_tools/registry/__init__.py:171-181 | after the combined update a name of the 32-bit result carries the 32-bit entry; any other name keeps the 64-bit entry |
| Registry.RemoveLeafDeletes | windows_tools/registry/__init__.py:207-213 | DeleteKey on a key without subkeys removes exactly that key and its name from its parent's list, keeping the view well formed |
| Registry.LoopStep | windows_tools/registry/__init__.py:198-209 | one turn of the loop (deleting enumeration index 0 and its subtree) advances the loop state by one listed subkey |
| Registry.LoopDone | windows_tools/registry/__init__.py:198-211 | after as many turns as the key had subkeys, everything strictly below the key is gone and all else is unchanged |
| Registry.EmptiedThenRemoved | windows_tools/registry/__init__.py:213 | deleting the emptied key itself completes the deletion of its subtree |
| Registry.DescendantsShrink | windows_tools/registry/__init__.py:209 | the recursion goes to a subtree with fewer keys, so it ends |
| Registry.ViewStore.DeleteSubKey | windows_tools/registry/__init__.py:195-215 | afterwards the key and all its descendants are gone, its parent no longer lists it, and every other key is unchanged; OSError (false) when the key is missing (nothing changes) or is a hive root |
| Registry.ViewStore.DeleteChildren | windows_tools/registry/__init__.py:198-211 | the loop deletes every key strictly below the key, leaving the key with no subkeys and all else unchanged |
| Registry.LiveRegistry.DeleteSubKey | windows_tools/registry/__init__.py:186-222 | with arch 768 the subtree goes from the 64-bit view and then from the 32-bit one: a key missing from the 64-bit view changes nothing, a hive root empties the 64-bit key and leaves the 32-bit view alone, and a key missing only from the 32-bit view raises after the 64-bit subtree is already gone; any other arch touches only the view it reaches, leaving it unchanged for a missing key and emptying a hive root; OSError exactly when the key is missing from a view it reaches or is a hive root |
| InstalledSoftware.WithoutBlank | windows_tools/installed_software/__init__.py:74-79 | no longer than its input; an entry is kept iff it is in the input and is not the blank `{"name": "", "version": "", "publisher": ""}` |
| InstalledSoftware.AllRenamed | windows_tools/installed_software/__init__.py:59-72 | one renamed entry per raw record |
| InstalledSoftware.GetInstalledSoftware | windows_tools/installed_software/__init__.py:27-79 | the HKLM records then the HKCU records (a hive that raises contributes nothing), renamed, blank entries filtered out |
| InstalledSoftware.RenameAll | windows_tools/installed_software/__init__.py:59-72 | the renaming loop maps each record, in order, to its DisplayName, DisplayVersion and Publisher as name, version and publisher, "" for a missing one |
| InstalledSoftware.RawEntriesOrder | windows_tools/installed_software/__init__.py:33-56 | the raw list is HKLM's 64-bit then 32-bit uninstall entries, then HKCU's, a view without the key contributing nothing |
| InstalledSoftware.AllRenamedAt | windows_tools/installed_software/__init__.py:59-72 | entry i of the renamed list is record i renamed |
| InstalledSoftware.InstalledEntries | windows_tools/installed_software/__init__.py:33-79 | an entry is returned iff it is not blank and some raw record renames to it; every returned entry has exactly name, version and publisher, the popped names gone |
| InstalledSoftware.RenamedBlank | windows_tools/installed_software/__init__.py:59-79 | a record without any of the three values becomes blank and is dropped; one with a non-empty DisplayName is kept under that name |
| Updates.DigitRun | windows_tools/updates/__init__.py:74 | the number of consecutive ASCII digits from a position: all of them digits, and the next character (if any) not a digit |
| Updates.FindKbFrom | windows_tools/updates/__init__.py:74 | None iff `KB[0-9]{5,7}` (case ignored) matches nowhere from i on; otherwise the greedy match at the leftmost position that matches |
| Updates.FindKb | windows_tools/updates/__init__.py:73-78 | `re.search(r'KB[0-9]{5,7}', title, re.IGNORECASE).group(0)`: None iff nothing matches; otherwise the leftmost match, with up to seven digits |
| Updates.KbShape | windows_tools/updates/__init__.py:73-78 | a found KB number is K and B in either case followed by five to seven digits, taken verbatim from the title (so `kb1234567` and `KB1234567` stay distinct) |
| Updates.KbMatchShape | windows_tools/updates/__init__.py:74 | the greedy match at a matching position has that shape and occurs there |
| Updates.GetWindowsUpdates | windows_tools/updates/__init__.py:43-92 | the loop over the history returns exactly the records WindowsUpdates computes, or the KeyError of the first unknown operation or result code |
| Updates.FailureSticks | windows_tools/updates/__init__.py:62-70 | once an entry raises KeyError, the whole call raises it |
| Updates.FailsIffUnknownCode | windows_tools/updates/__init__.py:28-70 | the call raises exactly when some entry's operation is outside 1-3 or its result code outside 1-5, even an entry the filter would drop |
| Updates.UnfilteredKeepsAll | windows_tools/updates/__init__.py:62-90 | without filter_multiple there is one record per history entry, in order, each with the seven fields built from that entry |
| Updates.FilterKeepsFirst | windows_tools/updates/__init__.py:80-90 | with filter_multiple the loop keeps exactly the first update of each identity (KB number, else title), and already_seen holds every identity seen |
| Updates.KeepFirstDistinct | windows_tools/updates/__init__.py:80-89 | the kept updates have pairwise distinct identities and cover every identity |
| Updates.KeepFirstSubsequence | windows_tools/updates/__init__.py:80-90 | the kept updates are updates of the unfiltered run, no more of them |
| Updates.FilteredUpdates | windows_tools/updates/__init__.py:80-92 | the filtered result is the unfiltered records with every repeat of an identity dropped: the first occurrence kept, identities distinct and all present |
| Antivirus.Hex | windows_tools/antivirus/__init__.py:77 | the `x` format writes at least one digit, each from 0123456789abcdef |
| Antivirus.ZeroPad | windows_tools/antivirus/__init__.py:77 | zero-filling keeps the digits as the text's tail and puts only '0' in front, up to the width |
| Antivirus.FormatState | windows_tools/antivirus/__init__.py:77 | `"{0:#0{1}x}".format(n, 8)` is never shorter than eight characters |
| Antivirus.PrepareRawState | windows_tools/antivirus/__init__.py:61-80 | a state that is accepted is exactly eight characters long |
| Antivirus.HexValueOfHex | windows_tools/antivirus/__init__.py:77 | the hex digits read back as the number they were written from |
| Antivirus.HexLength | windows_tools/antivirus/__init__.py:77-79 | a number takes at most k hex digits if and only if it is below 16^k |
| Antivirus.LeadingZeros | windows_tools/antivirus/__init__.py:72-73 | zero-filling does not change the value the digits spell |
| Antivirus.PrepareRawStateFits | windows_tools/antivirus/__init__.py:61-80 | the length check passes if and only if the state lies between -0xfffff and 0xffffff; a non-negative state then reads `0x` and six hex digits whose value is the state |
| Antivirus.PadIsDigits | windows_tools/antivirus/__init__.py:77 | zero-padding a number that fits w digits gives its last w hex digits |
| Antivirus.DigitsSplit | windows_tools/antivirus/__init__.py:9-16 | the last a+b hex digits are the last a digits of the number shifted right by b digits, then its last b digits |
| Antivirus.StateText | windows_tools/antivirus/__init__.py:77-80 | a state from 0 to 0xffffff becomes `0x` and its six last hex digits |
| Antivirus.TypeByte | windows_tools/antivirus/__init__.py:83-102 | the product type is the table entry of the state's most significant byte (bits 16 to 23) |
| Antivirus.ExecByte | windows_tools/antivirus/__init__.py:105-119 | the execution state is the table entry of the state's middle byte (bits 8 to 15) |
| Antivirus.UpdateByte | windows_tools/antivirus/__init__.py:122-134 | the update state is the table entry of the state's low byte |
| Antivirus.AntivirusType | windows_tools/antivirus/__init__.py:96 | state 262144 (0x040000) is an Antivirus |
| Antivirus.AntivirusOff | windows_tools/antivirus/__init__.py:115 | state 262144 has execution state False (off) |
| Antivirus.AntivirusUpToDate | windows_tools/antivirus/__init__.py:132 | state 262144 has update state True (up to date) |
| Antivirus.AntivirusOn | windows_tools/antivirus/__init__.py:117 | state 266240 (0x041000) has execution state True (on) |
| Antivirus.FirewallType | windows_tools/antivirus/__init__.py:94 | state 69632 (0x011000) is a Firewall |
| Antivirus.TooLongState | windows_tools/antivirus/__init__.py:78-79 | state 307302933 needs eight hex digits and raises ValueError |
| Antivirus.TextState | windows_tools/antivirus/__init__.py:77 | a state given as decimal text decodes exactly as the number does (`int(raw_state)`) |
| Antivirus.MatchesAtUpper | windows_tools/antivirus/__init__.py:186-195 | matching a pattern at a position ignores ASCII case (re.IGNORECASE) |
| Antivirus.SearchUpper | windows_tools/antivirus/__init__.py:186-195 | re.search with IGNORECASE finds a match in the capitalised text exactly when it finds one in the text |
| Antivirus.NameIgnoresCase | windows_tools/antivirus/__init__.py:186-188 | a program name matches the pattern anti.*(virus or viral) or malware whatever its ASCII case |
| Antivirus.PublisherIgnoresCase | windows_tools/antivirus/__init__.py:41-58 | a publisher matches the known vendor patterns whatever its ASCII case |
| Antivirus.SecEngine | windows_tools/antivirus/__init__.py:155-176 | the entry's name is displayName, None when it is missing; without productState the three states stay None; with one the entry is built exactly when prepare_raw_state accepts it, and otherwise fails with its error |
| Antivirus.Candidates | windows_tools/antivirus/__init__.py:181-199 | the candidate loop can only fail with TypeError (re.search given a name or publisher that is not text) |
| Antivirus.MergeOne | windows_tools/antivirus/__init__.py:205-209 | the inner merge loop can only fail with TypeError (`not in` on a name that is not text) |
| Antivirus.Merge | windows_tools/antivirus/__init__.py:203-209 | the nested merge loops can only fail with TypeError |
| Antivirus.TagSecurityCenter | windows_tools/antivirus/__init__.py:209-213 | the SecurityCenter entries go into the list one for one, in order |
| Antivirus.TagRegistry | windows_tools/antivirus/__init__.py:213 | the registry candidates are appended one for one, in order |
| Antivirus.GetInstalledAntivirusSoftware | windows_tools/antivirus/__init__.py:137-214 | the three loops over the query result and the installed programs return exactly the antivirus list: merged SecurityCenter entries followed by the candidates, or the error that escapes |
| Antivirus.ScanSecurityCenter | windows_tools/antivirus/__init__.py:148-179 | the first loop builds one entry per row until a TypeError ends it quietly; a ValueError escapes; no namespace gives no entries |
| Antivirus.SelectCandidates | windows_tools/antivirus/__init__.py:181-199 | the second loop keeps the installed programs the name or publisher test accepts, in order |
| Antivirus.MergeEngines | windows_tools/antivirus/__init__.py:201-211 | with candidates the nested loops, without them the SecurityCenter list unchanged |
| Antivirus.SecCenterPrefix | windows_tools/antivirus/__init__.py:153-179 | the entries are those of the leading rows, one per row and in order; when fewer than the rows, the next row's state raised TypeError; a failure is a ValueError raised by some row |
| Antivirus.SecCenterWithoutStates | windows_tools/antivirus/__init__.py:163-176 | rows without productState each give an entry |
| Antivirus.CandidatesMembers | windows_tools/antivirus/__init__.py:181-199 | the candidates are exactly the installed programs the test accepts; the loop fails if and only if the test raises for some program |
| Antivirus.MergeOneCount | windows_tools/antivirus/__init__.py:205-209 | with text names the inner loop adds the entry once per candidate whose name does not contain it, and nothing else |
| Antivirus.MergeCounts | windows_tools/antivirus/__init__.py:203-209 | with text names the merge as written repeats each SecurityCenter entry once per candidate that does not name it, counting multiplicities |
| Antivirus.MergeNeedsNames | windows_tools/antivirus/__init__.py:207 | with at least one candidate, an entry without a text displayName makes the merge raise TypeError |
| Antivirus.NoSecurityCenter | windows_tools/antivirus/__init__.py:139-141 | without SecurityCenter (a server) the list is exactly the registry candidates |
| Antivirus.NoCandidates | windows_tools/antivirus/__init__.py:210-211 | without candidates the list is exactly the SecurityCenter entries |
| Antivirus.MergeDuplicates | windows_tools/antivirus/__init__.py:203-209 | one SecurityCenter entry and two candidates that do not name it: as written the entry is listed twice, intended once |
| Antivirus.MergeOnceCounts | windows_tools/antivirus/__init__.py:201-202 | the intended merge keeps each entry as often as it occurs when no candidate names it and drops it otherwise: it never repeats an entry |
| Antivirus.MergeOnceSingle | windows_tools/antivirus/__init__.py:203-209 | with a single candidate the merge as written is the intended one |
| ProductKey.OrdsValues | windows_tools/product_key/__init__.py:52-54 | reading the window fails exactly when some cell has no ord() value (a str that is not one character long); otherwise it yields each cell's number |
| ProductKey.Divide | windows_tools/product_key/__init__.py:50-60 | one pass of the inner loop yields exactly one rewritten cell per cell read, and its remainder is a symbol index below 24 |
| ProductKey.DecodeKey | windows_tools/product_key/__init__.py:30-67 | the in-place decoder (the outer while, the inner pass over the list copy, the prepends and dashes) returns exactly DecodeSpec: IndexError for an input shorter than 67, TypeError for a bad cell, else the key of 25 symbols |
| ProductKey.DividePass | windows_tools/product_key/__init__.py:48-60 | the inner loop over elements 66 down to 52 returns the same new list and remainder as the pass function, or its error |
| ProductKey.DivideCell | windows_tools/product_key/__init__.py:51-59 | one step: the cell becomes the quotient by 24 capped at 255, the remainder below 24 carries on, and a cell without ord() raises TypeError |
| ProductKey.PassValues | windows_tools/product_key/__init__.py:50-60 | on cells with numbers the pass rewrites cells 52 to 52+j to Divide's quotients, keeps every other cell, and ends with Divide's remainder |
| ProductKey.PassFails | windows_tools/product_key/__init__.py:52-54 | a pass raises TypeError whenever any cell it will read has no number |
| ProductKey.PassWindowFails | windows_tools/product_key/__init__.py:50-60 | a pass over the window fails if and only if some cell of elements 52 to 66 has no number, and then with TypeError |
| ProductKey.DashRule | windows_tools/product_key/__init__.py:61-66 | the index test `(29 - i) % 6 == 0 and i != -1` fires exactly after the 5th, 10th, 15th and 20th symbol, and each turn moves the index to 28 minus symbols minus dashes |
| ProductKey.OuterTurn | windows_tools/product_key/__init__.py:47-66 | one turn of the outer loop moves the window one pass on, the index to its next place, and the key to the text of one more symbol |
| ProductKey.OuterValues | windows_tools/product_key/__init__.py:47-67 | from any turn, the outer loop ends with the key spelled by all 25 remainders |
| ProductKey.DecodeOuter | windows_tools/product_key/__init__.py:39-67 | the outer loop started at index 28 with an empty key computes DecodeSpec, including its two errors |
| ProductKey.DivideInRange | windows_tools/product_key/__init__.py:56-58 | when the cells read are not negative every rewritten cell lies in 0..255 |
| ProductKey.DivideValue | windows_tools/product_key/__init__.py:50-60 | on bytes, a pass is exact long division by 24 of the little-endian number held by elements 52 to 66 |
| ProductKey.AfterBytes | windows_tools/product_key/__init__.py:56-58 | a window of bytes stays a window of bytes after any number of passes |
| ProductKey.Base24Digits | windows_tools/product_key/__init__.py:47-62 | the first m remainders are the m lowest base-24 digits of the window's number, and the window then holds the quotient by 24^m |
| ProductKey.KeyFromEnd | windows_tools/product_key/__init__.py:61-66 | read from its end, the key after n symbols holds a dash at every sixth place and the n-th remainder's symbol elsewhere |
| ProductKey.KeyFormat | windows_tools/product_key/__init__.py:37 | the finished key is 29 characters long, with each character placed by its position from the end |
| ProductKey.KeyGroups | windows_tools/product_key/__init__.py:37 | the finished key is five groups of five symbols from BCDFGHJKMPQRTVWXY2346789, with a dash at exactly positions 5, 11, 17 and 23 |
| ProductKey.DecodeMeaning | windows_tools/product_key/__init__.py:30-67 | a successful decode is a 29-character key; on bytes, its symbols (last one least significant) are the 25 lowest base-24 digits of the 15-byte number at offset 52 |
| ProductKey.Base24Range | windows_tools/product_key/__init__.py:62 | n base-24 digits spell a number below 24^n |
| ProductKey.ProductKeyFromReg | windows_tools/product_key/__init__.py:70-91 | None when DigitalProductID is missing from both registry views, is an int, or fails to decode; otherwise the decoded key, which is 29 characters long |
| ProductKey.ProductKeyFromWmi | windows_tools/product_key/__init__.py:94-106 | the first row's OA3xOriginalProductKey when there is a row holding it; None when the query result is None, empty or lacks it |
| ProductKey.GetWindowsProductChannel | windows_tools/product_key/__init__.py:109-144 | None exactly when the query result is not a list; UNKNOWN when there is no first row, no Description or a Description that is not text; otherwise the channel of the upper-cased description |
| ProductKey.FirstContained | windows_tools/product_key/__init__.py:127-141 | the index of the first name that occurs in the text: no earlier name occurs, and the one found does |
| ProductKey.ChannelIsFirstMatch | windows_tools/product_key/__init__.py:127-144 | the if-chain returns the first of VOLUME_MAK, OEM_SLP, RETAIL, OEM_COA_NSLP, OEM_COA_SLP, VOLUME, OEM that the description contains, and UNKNOWN when it contains none |
| WmiQueries.TimezoneBias | windows_tools/wmi_queries/__init__.py:206-227 | the first row's Bias when the result is a list whose first row has one; the text "0" when the result is None, empty or without Bias |
| WmiQueries.DecDigits | windows_tools/wmi_queries/__init__.py:239 | a zero-padded strftime field has exactly its width, in decimal digits |
| WmiQueries.Fields | windows_tools/wmi_queries/__init__.py:252 | a successful match of the month, day, hour, minute and second groups yields one value per remaining group and leaves a fraction that starts with a digit |
| WmiQueries.SignAt | windows_tools/wmi_queries/__init__.py:251 | the split point is the first `+` or `-` of the text |
| WmiQueries.DecDigitsValue | windows_tools/wmi_queries/__init__.py:239 | a number below 10^w written with w digits reads back as itself |
| WmiQueries.FieldsStep | windows_tools/wmi_queries/__init__.py:252 | a two-digit group in its range is matched by its two-character alternative and read back as its value |
| WmiQueries.FieldsOfStrfTime | windows_tools/wmi_queries/__init__.py:239-252 | the fields strftime writes after the year are matched back to month, day, hour, minute and second, leaving the six microsecond digits |
| WmiQueries.StrpTimeOfStrfTime | windows_tools/wmi_queries/__init__.py:239-252 | strptime with "%Y%m%d%H%M%S.%f" gives back every datetime strftime wrote with it |
| WmiQueries.StrfTimeShape | windows_tools/wmi_queries/__init__.py:239 | strftime writes 14 digits, a dot and 6 digits |
| WmiQueries.StrfTimeNoSign | windows_tools/wmi_queries/__init__.py:239-251 | the formatted datetime holds no `+` or `-` |
| WmiQueries.Decompose | windows_tools/wmi_queries/__init__.py:251 | a formatted datetime, one sign and a sign-free offset split exactly at the sign |
| WmiQueries.TimestampShape | windows_tools/wmi_queries/__init__.py:230-240 | without localizing the timestamp is 14 date digits, a dot, 6 microsecond digits and "+0" |
| WmiQueries.RoundTripNaive | windows_tools/wmi_queries/__init__.py:230-263 | parsing a timestamp written without localizing, with utc False, gives back the naive datetime |
| WmiQueries.RoundTripUtc | windows_tools/wmi_queries/__init__.py:230-263 | with utc True it gives back the same wall-clock fields with a zero offset |
| WmiQueries.RoundTripBias | windows_tools/wmi_queries/__init__.py:230-263 | a non-negative bias is read back as that offset: attached with utc (ValueError beyond a day), added to the datetime without |
| WmiQueries.NegativeBiasUnreadable | windows_tools/wmi_queries/__init__.py:239-251 | a negative bias is written after the `+`, so the timestamp holds two signs and cim_timestamp_to_datetime rejects it with ValueError |
| WmiQueries.TwoSigns | windows_tools/wmi_queries/__init__.py:251 | "+-N" after a sign-free datetime gives a text with two signs |
| WmiQueries.SignedText | windows_tools/wmi_queries/__init__.py:239 | with the sign taken from the bias, the timestamp is the datetime text, the sign of the bias and its magnitude |
| WmiQueries.SignedParse | windows_tools/wmi_queries/__init__.py:243-263 | with the sign written out, every numeric bias is read back as that offset, with or without utc |
| WmiQueries.SignedRoundTrip | windows_tools/wmi_queries/__init__.py:243-263 | every bias under a day, of either sign, comes back attached as the offset with utc True |
| WmiQueries.ParseParts | windows_tools/wmi_queries/__init__.py:251-263 | a text with one sign whose two sides parse gives the datetime with the offset, negated after `-` |
| WmiQueries.MinutesBounds | windows_tools/wmi_queries/__init__.py:262 | every valid datetime lies between the first minute of year 1 and the last of year 9999 |
| WmiQueries.NextMinuteShift | windows_tools/wmi_queries/__init__.py:262 | the next minute is a valid datetime one minute later, with seconds and microseconds kept |
| WmiQueries.PrevMinuteShift | windows_tools/wmi_queries/__init__.py:262 | the previous minute is a valid datetime one minute earlier, with seconds and microseconds kept |
| WmiQueries.AddMinutesShift | windows_tools/wmi_queries/__init__.py:262 | `timestamp += timedelta(minutes=offset)` moves the minute count by exactly the offset, keeps the seconds and microseconds, and stays valid |
| WmiQueries.AddMinutesDefined | windows_tools/wmi_queries/__init__.py:262 | the shift raises OverflowError exactly when the target minute falls outside years 1 to 9999 |
| Virtualization.IcSearch | windows_tools/virtualization/__init__.py:104 | `re.search(name, value, re.IGNORECASE)` for a name without special characters: true iff the name occurs somewhere in the value, ignoring case |
| Virtualization.FirstProduct | windows_tools/virtualization/__init__.py:102-104 | the index of the first name in the fixed list that occurs in the value: no earlier name occurs, and the one at the index does |
| Virtualization.TextHit | windows_tools/virtualization/__init__.py:101-108 | for one str value: None iff no name occurs; a hit is a listed name and never VRTUAL |
| Virtualization.CheckForVirtualization | windows_tools/virtualization/__init__.py:74-109 | virtual iff the nested search hits; otherwise the product is 'Physical / Unknown hypervisor'; a reported product is a listed name, never VRTUAL |
| Virtualization.RecordHitIsFirstHit | windows_tools/virtualization/__init__.py:99-108 | the loop over one answer's properties is the first-hit search over its str values, continued into the rest |
| Virtualization.InfoHitIsFirstHit | windows_tools/virtualization/__init__.py:98-108 | the nested loops equal the reference search for the first str value (answer by answer, property by property) that holds a name |
| Virtualization.FirstHitNone | windows_tools/virtualization/__init__.py:98-109 | the reference search finds nothing iff no value holds a name |
| Virtualization.FirstHitFirst | windows_tools/virtualization/__init__.py:98-108 | what it finds is the hit of a value before which no value holds a name |
| Virtualization.HitIsProduct | windows_tools/virtualization/__init__.py:102-108 | a reported hypervisor is a listed name and never the misspelling |
| Virtualization.RecordHitIsProduct | windows_tools/virtualization/__init__.py:102-108 | the same for one answer |
| Virtualization.VirtualIffSomeName | windows_tools/virtualization/__init__.py:98-109 | reported virtual iff some str value holds a hypervisor name; values of other types are never examined (so an empty input is physical) |
| Virtualization.ReportsFirstValue | windows_tools/virtualization/__init__.py:98-108 | the product reported is the hit of the first str value holding a name |
| Virtualization.OVirtWins | windows_tools/virtualization/__init__.py:101-102 | a value holding oVirt reports oVirt, whatever else (KVM, qemu) it holds |
| Virtualization.VrtualIsHyperV | windows_tools/virtualization/__init__.py:106-107 | a value whose only name is VRTUAL is reported as Hyper-V |
| LogicalDisks.LogicalDisksWin32Api | windows_tools/logical_disks/__init__.py:43-75 | None exactly when GetLogicalDriveStrings raises; otherwise the NUL-split drives, filtered by filesystem only when include_fs is truthy, each stripped of trailing backslashes |
| LogicalDisks.StripAll | windows_tools/logical_disks/__init__.py:74 | the list of the drives with their trailing backslashes removed (StripEach) |
| LogicalDisks.LogicalDisksPsutil | windows_tools/logical_disks/__init__.py:78-97 | None exactly when disk_partitions raises; otherwise the devices of the kept partitions, in order, stripped of trailing backslashes |
| LogicalDisks.PlainDrives | windows_tools/logical_disks/__init__.py:33-40 | every returned name is a letter followed by ":" |
| LogicalDisks.GetLogicalDisks | windows_tools/logical_disks/__init__.py:100-129 | win32api when network drives are wanted, psutil otherwise; the letter probe when that one raises; None when the probe raises too |
| LogicalDisks.FilterVolumesMembers | windows_tools/logical_disks/__init__.py:56-71 | a drive survives the filter iff its filesystem is listed, or it cannot be read and unknown filesystems are not excluded |
| LogicalDisks.FilterVolumesOrder | windows_tools/logical_disks/__init__.py:57-71 | the filtered drives are a subsequence of the listed ones (order kept) |
| LogicalDisks.KeptDevicesMembers | windows_tools/logical_disks/__init__.py:88-95 | a device is returned iff some partition with that device passes the fstype test (listed, or empty when unknown filesystems are not excluded) |
| LogicalDisks.KeptDevicesUnfiltered | windows_tools/logical_disks/__init__.py:94-95 | without include_fs every partition's device is returned, in order |
| LogicalDisks.NoFilterKeepsAll | windows_tools/logical_disks/__init__.py:56-74 | without include_fs every drive is returned, in order, only stripped |
| LogicalDisks.StripEachAt | windows_tools/logical_disks/__init__.py:74-96 | each returned drive is its listed drive right-stripped of backslashes and does not end with one |
| LogicalDisks.DriveListRoundTrip | windows_tools/logical_disks/__init__.py:53-54 | splitting the NUL-terminated drive string and dropping the last (empty) part gives back exactly the drive names |
| LogicalDisks.ExistingFromMembers | windows_tools/logical_disks/__init__.py:39 | from letter x on, the probe lists exactly the existing names among x: to Z:, in strictly increasing letter order |
| LogicalDisks.PlainDrivesOrdered | windows_tools/logical_disks/__init__.py:33-40 | the probe returns exactly the existing names among A: to Z:, in alphabetical order |
| Office.KnownNameMisses | windows_tools/office/__init__.py:129-131 | a key equal to none of the KNOWN_VERSIONS keys gives the KeyError (None) |
| Office.UsedWordVersion | windows_tools/office/__init__.py:58-71 | a version is found only when CurVer's default value is text with at least three dot-fields, and it is the integer of the third field; a missing value, a non-text value, too few fields and a non-integer field all give None |
| Office.WordVersionOfProgId | windows_tools/office/__init__.py:63-68 | a ProgID "a.b.<n>" (such as Word.Application.16) gives n |
| Office.InstalledFromMeaning | windows_tools/office/__init__.py:79-101 | the loop over KNOWN_VERSIONS (from entry i) finds nothing iff no version's tree has Word; otherwise it returns the first version whose tree has Word, with ClickToRunStore's presence in that tree |
| Office.InstalledIsNewestWithWord | windows_tools/office/__init__.py:74-101 | `(None, None)` iff no known version's combined two-view tree has Word; otherwise the newest version whose tree has Word, and is_click_and_run iff that tree has ClickToRunStore |
| Office.ChosenVersion | windows_tools/office/__init__.py:111-121 | the used Word version wins; otherwise the installed one; None iff neither is found |
| Office.OfficeName | windows_tools/office/__init__.py:124-144 | None exactly when there is no version |
| Office.GetOfficeVersionNamed | windows_tools/office/__init__.py:104-151 | the name is None iff neither a used Word version nor an installed version is found |
| Office.GetOfficeVersionSuffix | windows_tools/office/__init__.py:146-151 | the suffix is 'ClickAndRun' iff the product ids are a str or ClickToRunStore was found, and None otherwise |
| Office.KeyWithTwoDotsMisses | windows_tools/office/__init__.py:127-131 | the lookup of `'{}.0'.format(version)` (such as "15.0.0") misses every KNOWN_VERSIONS key |
| Office.NotTwoDots | windows_tools/office/__init__.py:129 | no key "m.0" equals "n.0.0" |
| Office.OldVersionIsUnknown | windows_tools/office/__init__.py:126-143 | every version below 16 is reported as 'Unknown: <version>' |
| Office.Office2013AsWritten | windows_tools/office/__init__.py:127-143 | version 15 is reported as 'Unknown: 15.0', not '2013' |
| Office.KeyTextInjective | windows_tools/office/__init__.py:29-39 | distinct versions have distinct float-text keys |
| Office.VersionsDecrease | windows_tools/office/__init__.py:28-39 | KNOWN_VERSIONS runs from the newest version to the oldest, without repeats |
| Office.KnownNameFinds | windows_tools/office/__init__.py:29-39 | looking up a known version's own key finds that version's name |
| Office.IntendedNamesKnown | windows_tools/office/__init__.py:127-131 | with the lookup key `'{}'.format(version)`, every known version below 16 gets its Office name |
| Office.Office16Priority | windows_tools/office/__init__.py:133-141 | for version 16 the product ids are checked for '2016', then '2019', then 'O365', with '2016/2019/O365' when they are not a str |
| Office.WordVersionWins | windows_tools/office/__init__.py:114-116 | when a Word version is in use, the name is computed from it, whatever is installed |
| FileUtils.EasyPermissions | windows_tools/file_utils/__init__.py:137-157 | ValueError (None) exactly when the upper-cased text is none of R, RX, RWX, M, F; R gives GENERIC_READ, F GENERIC_ALL, RX the OR of read and execute |
| FileUtils.EasyMasksAreSums | windows_tools/file_utils/__init__.py:147-154 | the rights never overlap, so RX and RWX are the sums of their rights |
| FileUtils.EasyPermissionValues | windows_tools/file_utils/__init__.py:137-157 | the signed 32-bit masks: R -2147483648, RX -1610612736, RWX and M -536870912, F 268435456; the empty text is refused |
| FileUtils.ModifyIsReadWriteExecute | windows_tools/file_utils/__init__.py:149 | M, in any case, gives the same mask as RWX |
| FileUtils.EasyPermissionsIgnoreCase | windows_tools/file_utils/__init__.py:144 | the text is upper-cased first, so lower-case letters give the same result |
| FileUtils.EasyMasksDistinct | windows_tools/file_utils/__init__.py:145-156 | R, RX, RWX and F give four different masks |
| FileUtils.InheritanceFlags | windows_tools/file_utils/__init__.py:182-187 | OBJECT_INHERIT_ACE and CONTAINER_INHERIT_ACE are both set if and only if inheritance is asked for |
| FileUtils.FlagBits | windows_tools/file_utils/__init__.py:229-254 | OWNER, DACL and UNPROTECTED_DACL each set one bit (0, 2 and 29); PROTECTED_DACL, negative as pywin32 gives it, sets every bit from 31 up |
| FileUtils.SecurityFlagsMeaning | windows_tools/file_utils/__init__.py:237-255 | the flags hold the DACL bit always, PROTECTED exactly when inherit is false, UNPROTECTED exactly when it is true, OWNER exactly when an owner is given, and nothing else |
| FileUtils.Descriptor.constructor | windows_tools/file_utils/__init__.py:189-198 | the dict starts as GRANT_ACCESS, permissions 0, the inheritance flags, no trustee type, TRUSTEE_IS_SID and an empty identifier |
| FileUtils.Descriptor.Assign | windows_tools/file_utils/__init__.py:210-213 | the loop body sets the permissions, trustee type and identifier and leaves the other fields |
| FileUtils.Trustees | windows_tools/file_utils/__init__.py:203-205 | with neither list given, the only trustee is the current user |
| FileUtils.UsersAs | windows_tools/file_utils/__init__.py:207-223 | each SID of a list becomes one trustee of the list's kind, in order |
| FileUtils.IntendedEntries | windows_tools/file_utils/__init__.py:200-223 | one entry per trustee, each naming its own trustee |
| FileUtils.AsWrittenEntries | windows_tools/file_utils/__init__.py:207-223 | one entry per trustee, every one naming the last trustee visited |
| FileUtils.AppendTrustees | windows_tools/file_utils/__init__.py:207-223 | one loop appends the same dict once per SID, and the dict ends up showing the last SID |
| FileUtils.LastTrustee | windows_tools/file_utils/__init__.py:207-223 | after both loops the shared dict shows the entry of the trustee visited last: the last group, or the last user when there is no group |
| FileUtils.BuildDescriptors | windows_tools/file_utils/__init__.py:189-223 | the list holds one and the same new dict once per trustee, so it shows the as-written entries |
| FileUtils.SetAcls | windows_tools/file_utils/__init__.py:160-265 | the entries given to SetEntriesInAcl are the as-written ones, and the flags given to SetNamedSecurityInfo are those of inherit and the owner |
| FileUtils.AsWrittenIsIntendedIff | windows_tools/file_utils/__init__.py:207-223 | the entries as written equal one entry per trustee if and only if every trustee is the same |
| FileUtils.TwoUsersKeepOnlyTheLast | windows_tools/file_utils/__init__.py:207-214 | with the users alice and bob, both entries name bob and the entry for alice is lost |
| Signing.TimestampServerFrom | windows_tools/signtool/__init__.py:132-147 | None (ValueError "No online timeserver found") exactly when no listed server answers; otherwise the first server of the list, in order, that answers |
| Signing.NewSignTool | windows_tools/signtool/__init__.py:73-90 | a non-empty URL is kept as given; without one the tool exists exactly when some timestamp server answers; the certificate, password, container and provider are kept as given |
| Signing.EffectiveBitness | windows_tools/signtool/__init__.py:152-155 | a bitness given (truthy) is kept; a missing one becomes 64 or 32 when win32file can classify the executable, and stays missing otherwise |
| Signing.SelectArch | windows_tools/signtool/__init__.py:156-166 | the branch taken: x86 exactly for 32, "32" and "x86"; x64 exactly for 64, "64" and "x64"; the autodetect ValueError exactly for a falsy bitness; "Bogus bitness." for anything else |
| Signing.SigntoolPath | windows_tools/signtool/__init__.py:92-130 | the StopIteration of detect_signtool escapes exactly when detection raises, whether or not the variable is set, because the default of `os.environ.get` is evaluated first; otherwise SIGNTOOL_X32 or SIGNTOOL_X64 when set, else the detected path, or None when no SDK version was found |
| Signing.SelectSigntool | windows_tools/signtool/__init__.py:156-166 | the x86 forms give the x86 path and run only the x86 detection, the x64 forms likewise; a falsy bitness raises the autodetect ValueError and any other value "Bogus bitness." |
| Signing.EnvironmentDoesNotShieldDetection | windows_tools/signtool/__init__.py:156-159 | for a valid bitness, sign's tool selection fails with the escaping StopIteration exactly when the selected architecture's detection raises, whatever the environment holds |
| Signing.Rendered | windows_tools/signtool/__init__.py:171-184 | each argument is rendered in order, one text per argument |
| Signing.RenderAllAppend | windows_tools/signtool/__init__.py:171-184 | the rendering of two argument lists is the concatenation of their renderings |
| Signing.RenderStep | windows_tools/signtool/__init__.py:174-184 | each `cmd +=` appends exactly the rendering of one more argument |
| Signing.SignCommand | windows_tools/signtool/__init__.py:171-184 | the command line built step by step is the signtool path followed by the rendered arguments: the timestamp options, the certificate options, the provider and the quoted executable |
| Signing.PasswordForms | windows_tools/signtool/__init__.py:174-181 | the password goes inside the key-container option exactly when a certificate and a container are given, as -p exactly when a certificate and a password but no container are given, never both, and never without a certificate |
| Signing.ProviderIndependent | windows_tools/signtool/__init__.py:182-183 | the -csp option appears exactly when a provider is given, with or without a certificate |
| Signing.CommandFrame | windows_tools/signtool/__init__.py:171-184 | the command line always starts with the tool and "sign -tr URL -td sha256 -fd sha256" and ends with the quoted executable |
| Signing.Sign | windows_tools/signtool/__init__.py:149-211 | a bitness error or a StopIteration from the selected detection leaves everything as it was, even with SIGNTOOL_X32 or SIGNTOOL_X64 set; a missing signtool raises; a dry run returns the command; with the flag file and a container it refuses; exit code 0 signs; any other code raises and leaves the flag file behind |
| Signing.AutodetectedArch | windows_tools/signtool/__init__.py:152-164 | without a bitness, a 64-bit executable selects the x64 tool, any other type win32file gives selects x86, and without win32file the autodetect ValueError is raised |
| Signing.ExplicitBitnessWins | windows_tools/signtool/__init__.py:152-159 | a bitness given explicitly is never overridden by autodetection |
| PowerShell.RunCommand | windows_tools/powershell/__init__.py:99-116 | no invocation (False) exactly when there is no interpreter; otherwise the timeout defaults to 300 and the valid exit codes to [0] |
| PowerShell.RunCommandLine | windows_tools/powershell/__init__.py:112 | the command line starts with the interpreter and " -NonInteractive -NoLogo ", and the rest of it is exactly the command |
| PowerShell.RunScript | windows_tools/powershell/__init__.py:118-138 | no invocation (False) exactly when there is no interpreter; otherwise the timeout defaults to 300 and the valid exit codes to [0] |
| PowerShell.ScriptWithoutArgs | windows_tools/powershell/__init__.py:131-133 | without arguments the command line ends with the script followed by one space |
| PowerShell.QuotedArgsCounts | windows_tools/powershell/__init__.py:133 | for arguments without double quotes, the quoted list holds exactly two quotes per argument and one separating space fewer than arguments, beside the arguments' own spaces |
| PowerShell.ParseVersion | windows_tools/powershell/__init__.py:89-97 | an output that splits on dots into neither four nor two parts gives (-1, 0); any other result is the integer value of the first two parts |
| PowerShell.GetVersion | windows_tools/powershell/__init__.py:71-97 | (0, 0) without an interpreter; with exit code 0, the parse of the command's output; an escaping error only when the command failed and the registry fallback is used |
| PowerShell.FourPartVersion | windows_tools/powershell/__init__.py:90-91 | the text major.minor.build.revision parses back to (major, minor) |
| PowerShell.TwoPartVersion | windows_tools/powershell/__init__.py:93-94 | the text major.minor parses back to (major, minor) |
| PowerShell.MissingRegistryVersion | windows_tools/powershell/__init__.py:81-88 | a failing command and a missing PowerShellVersion value give (-1, -1) |
| PowerShell.RegistryVersionUsed | windows_tools/powershell/__init__.py:81-95 | a failing command falls back to the registry's PowerShellVersion text, parsed the same way |
| PowerShell.ThreePartsIsUnknown | windows_tools/powershell/__init__.py:89-97 | a three-part version text is not accepted and gives (-1, 0) |
| Registry.RemoveLeafChildrenExist | windows_tools/registry/__init__.py:207-213 | deleting a key without subkeys leaves every listed subkey of every remaining key present |
| Registry.RemoveLeafParentsList | windows_tools/registry/__init__.py:207-213 | deleting a key without subkeys leaves every remaining key listed by a parent that is still present |
| Text.Split | windows_tools/powershell/__init__.py:91-94 | `str.split` on one character yields at least one part, and no part holds the separator |
| Text.SplitJoin | windows_tools/powershell/__init__.py:91-94 | joining the parts of a split with the separator gives the text back, and there is one part more than there are separators |
| Text.ParseIntText | windows_tools/wmi_queries/__init__.py:255 | `int(str(i)) == i` for every integer |
| Text.UpperStrIdempotent | windows_tools/file_utils/__init__.py:144 | upper-casing an upper-cased text changes nothing |
| Text.RStrip | windows_tools/logical_disks/__init__.py:74 | `rstrip(c)` keeps a prefix of the text that does not end with c and removes only c characters |

## Left out

- Native calls (winreg, WMI and COM, win32security, win32api, win32file, psutil, ctypes): each answer they give is a parameter. Registry views are trees, query results are optional row sequences, and file existence is a set of paths.
- `query_wmi` and `wmi_object_2_list_of_dict`: what they return depends on COM object attributes and exception types. Their result is a parameter.
- `create_cim_timestamp_from_now` and `create_current_cim_timestamp`: they read the wall clock.
- The process-wide registry handle cache `OPEN_REGISTRY_HANDLE` in `get_keys` is connection plumbing. The model opens the hive asked for on every call.
- Registry key and value names are compared exactly. Windows compares them ignoring case.
- Bitness.Is64Bit: environment variable names are looked up exactly as given, upper case as Windows stores them. `os.environ` on Windows ignores case.
- Text.UpperStr: `str.upper()` is modelled for ASCII letters only. Python maps every Unicode letter. Regular-expression matching with IGNORECASE also matches the four non-ASCII letters Python's `re` folds onto ASCII (U+0130, U+0131, U+017F, U+212A).
- Text.ParseInt: `int()` is modelled for ASCII whitespace, an optional sign and ASCII digits. Underscores between digits and non-ASCII decimal digits, which Python also accepts, are not.
- Updates.FindKb: `[0-9]` is matched as ASCII digits, which is what it means in Python's `re`.
- WmiQueries.StrfTime: `%Y` is written with four digits. Some C libraries write years below 1000 without leading zeros.
- WmiQueries.StrpTime: the day, month and hour groups accept the ASCII forms only. The locale-dependent directives are not used by the code.
- Office.KeyText: `'{}'.format(float(version))` is written as the integer followed by ".0". That is Python's text for every version below 10^16. Larger floats print in exponent form, which is not modelled.
- Office.UsedWordVersion: a REG_BINARY CurVer value makes `bytes.split('.')` raise TypeError, which escapes. The model gives None, as it does for the errors the code catches.
- ProductKey.DecodeKey: `int(acc / 24)` is float division truncated toward zero. It is exact here, because the accumulator stays below 24 * 256 plus the largest code point. The model writes it as integer division truncated toward zero.
- FileUtils.SetAcls: `get_pysid` name lookups, reading the existing DACL, and the GetNamedSecurityInfo, SetEntriesInAcl and SetNamedSecurityInfo calls are not modelled. SIDs are taken as given. The method returns the entries and flags those calls would receive.
- file_utils ownership functions (`get_ownership`, `take_ownership`, `take_ownership_recursive`, `get_paths_recursive_and_fix_permissions`): OS security APIs.
- Signing.SelectArch: states only which branch of lines 156-166 is taken; the path each branch picks, and the detection that can raise on the way, are stated by Signing.SelectSigntool and Signing.SigntoolPath.
- Signing.Sign: `detect_signtool`'s file-system globbing is not modelled; how it ends (a path, None, or StopIteration) is a parameter per architecture. `get_timestamp_server`'s network probe is the set of servers that answer. `command_runner` is an exit code parameter. The flag file is a boolean, and its contents and the DRY RUN print are not modelled.
- Signing.Sign: a signtool path of None is reported as "Could not find valid signtool.exe". Python's generic `os.path.exists(None)` raises TypeError instead.
- PowerShell: the interpreter search in the constructor (environment and file-system probing) is not modelled. The runner holds the interpreter it found, or none. `command_runner`'s output, its encoding and extra keyword arguments are not modelled. The exit code and output of the version command are parameters.
- LogicalDisks: a GetVolumeInformation call that raises is a drive missing from the volume map.
- securityprivilege, impersonate, bitlocker, misc, `get_relevant_platform_info`, setup.py and the package `__init__`: token manipulation, process execution, float and timezone arithmetic, and packaging. The platform information is a parameter of `check_for_virtualization`.
- Logging and `print` calls throughout.

## Findings

| source | as written | input that shows it | evidently intended | confidence | as-written member | corrected member |
|---|---|---|---|---|---|---|
| windows_tools/antivirus/__init__.py:203-209 | each SecurityCenter entry is appended once per registry candidate whose name does not contain it | one entry "Windows Defender" and two candidates "Avast" and "ESET": the entry is listed twice | each SecurityCenter entry is added once, unless a candidate already names it (the comment at lines 201-202) | not executed | Antivirus.MergeDuplicates | Antivirus.MergeOnceCounts |
| windows_tools/wmi_queries/__init__.py:239-251 | the bias is appended after a fixed `+` | a timezone bias of -300 gives "...+-300", which holds two signs, so `cim_timestamp_to_datetime` raises ValueError on the text the module itself wrote | the sign of the bias replaces the `+`, so the text reads back as the same time | not executed | WmiQueries.NegativeBiasUnreadable | WmiQueries.SignedRoundTrip |
| windows_tools/office/__init__.py:129 | KNOWN_VERSIONS is indexed with `'{}.0'.format(version)` where version is already a float | version 15 looks up "15.0.0" and is reported as "Unknown: 15.0" instead of "2013" | the lookup key is `'{}'.format(version)`, "15.0" | not executed | Office.Office2013AsWritten | Office.IntendedNamesKnown |
| windows_tools/file_utils/__init__.py:207-223 | one dict `security_descriptor` is updated and appended for every trustee | users alice and bob: both entries name bob, and alice gets no entry | one entry per trustee, each naming its own trustee | not executed | FileUtils.TwoUsersKeepOnlyTheLast | FileUtils.AsWrittenIsIntendedIff |

The model keeps the code as written wherever it describes what the package does:

- `get_installed_antivirus_software` uses the merge as written;
- `utc_datetime_to_cim_timestamp` always writes `+`;
- `get_office_version` uses the `.0.0` key;
- `set_acls` returns the shared-dict entries.

The corrected definitions stand beside them: `Antivirus.MergeOnce`, `WmiQueries.SignedCimTimestamp`, `Office.OfficeNameIntended` and `FileUtils.IntendedEntries`. Each has its intended property proved.
