// windows_tools/updates: the Windows Update history turned into records, with the KB number
// taken from each title and, on request, repeated updates dropped.
module Updates {
  import opened Wrappers
  import opened Text

  /** One entry of IUpdateSearcher.QueryHistory; `date` is carried through uninterpreted. */
  datatype HistoryEntry = HistoryEntry(date: string, title: string, description: string, supportUrl: string,
                                       operation: int, resultCode: int)

  /** The dict built for one entry. */
  datatype Update = Update(kb: Option<string>, date: string, title: string, description: string,
                           supportUrl: string, operation: string, result: string)

  /** The KeyError raised by a code outside OPERATION_CODES or STATUS_CODES. */
  datatype UpdateError = UnknownOperation(operation: int) | UnknownResult(resultCode: int)

  /** OPERATION_CODES. */
  function OperationName(code: int): Option<string> {
    if code == 1 then Some("installation")
    else if code == 2 then Some("uninstallation")
    else if code == 3 then Some("other")
    else None
  }

  /** STATUS_CODES. */
  function StatusName(code: int): Option<string> {
    if code == 1 then Some("in progress")
    else if code == 2 then Some("succeeded")
    else if code == 3 then Some("succeeded with errors")
    else if code == 4 then Some("failed")
    else if code == 5 then Some("aborted")
    else None
  }

  // ---------------------------------------------------------------- the KB number

  predicate IsK(c: char) { IgnoreCaseEq(c, 'K') }

  predicate IsB(c: char) { IgnoreCaseEq(c, 'B') }

  /** How many ASCII digits follow position `i` without interruption. */
  function DigitRun(s: string, i: nat): (n: nat)
    ensures i + n <= |s| || (i > |s| && n == 0)
    ensures forall k :: i <= k < i + n ==> IsDigit(s[k])
    ensures i + n < |s| ==> !IsDigit(s[i + n])
    decreases |s| - i
  {
    if i < |s| && IsDigit(s[i]) then 1 + DigitRun(s, i + 1) else 0
  }

  /** `KB[0-9]{5,7}` matches (ignoring case) at position `i`. */
  predicate KbAt(s: string, i: nat) {
    i + 2 <= |s| && IsK(s[i]) && IsB(s[i + 1]) && DigitRun(s, i + 2) >= 5
  }

  /** The greedy match at `i`: the two letters and up to seven digits. */
  function KbMatch(s: string, i: nat): string
    requires KbAt(s, i)
  {
    var run := DigitRun(s, i + 2);
    s[i..i + 2 + (if run > 7 then 7 else run)]
  }

  function FindKbFrom(s: string, i: nat): (r: Option<string>)
    ensures r.None? <==> forall j :: i <= j ==> !KbAt(s, j)
    ensures r.Some? ==> exists j :: i <= j && KbAt(s, j) && r.value == KbMatch(s, j) && forall k :: i <= k < j ==> !KbAt(s, k)
    decreases |s| - i
  {
    if i + 2 > |s| then None
    else if KbAt(s, i) then Some(KbMatch(s, i))
    else FindKbFrom(s, i + 1)
  }

  /** `re.search(r'KB[0-9]{5,7}', title, re.IGNORECASE).group(0)`, None when nothing matches. */
  function FindKb(title: string): (r: Option<string>)
    ensures r.None? <==> forall j :: !KbAt(title, j)
    ensures r.Some? ==> exists j: nat :: KbAt(title, j) && r.value == KbMatch(title, j) && forall k: nat :: k < j ==> !KbAt(title, k)
  {
    FindKbFrom(title, 0)
  }

  /** A found KB number is the letters K and B in some case followed by five to seven digits,
      and it is text of the title. */
  lemma KbShape(title: string)
    requires FindKb(title).Some?
    ensures var kb := FindKb(title).value;
      7 <= |kb| <= 9 && IsK(kb[0]) && IsB(kb[1]) && (forall k :: 2 <= k < |kb| ==> IsDigit(kb[k]))
      && exists j :: OccursAt(title, kb, j)
  {
    var j: nat :| KbAt(title, j) && FindKb(title).value == KbMatch(title, j);
    KbMatchShape(title, j);
  }

  lemma KbMatchShape(s: string, i: nat)
    requires KbAt(s, i)
    ensures var kb := KbMatch(s, i);
      7 <= |kb| <= 9 && IsK(kb[0]) && IsB(kb[1]) && (forall k :: 2 <= k < |kb| ==> IsDigit(kb[k]))
      && OccursAt(s, kb, i)
  {
    var run := DigitRun(s, i + 2);
    var n := 2 + (if run > 7 then 7 else run);
    var kb := s[i..i + n];
    assert kb == KbMatch(s, i);
    assert forall k :: 2 <= k < n ==> kb[k] == s[i + k] && i + 2 <= i + k < i + 2 + run;
  }

  // ---------------------------------------------------------------- the records

  /** The dict for one entry, or the KeyError its codes raise (operation first, as the dict display
      evaluates it first). */
  function MakeUpdate(e: HistoryEntry): Result<Update, UpdateError> {
    match OperationName(e.operation)
    case None => Err(UnknownOperation(e.operation))
    case Some(op) =>
      match StatusName(e.resultCode)
      case None => Err(UnknownResult(e.resultCode))
      case Some(status) => Ok(Update(FindKb(e.title), e.date, e.title, e.description, e.supportUrl, op, status))
  }

  /** What `already_seen` records for an update: its KB number when it has one, else its title. */
  function Identity(u: Update): string {
    if u.kb.Some? then u.kb.value else u.title
  }

  /** The loop's state: the updates kept and the `already_seen` list. */
  datatype Scan = Scan(updates: seq<Update>, seen: seq<string>)

  /** One turn of get_windows_updates' loop: the state after the earlier entries and the record
      (or KeyError) of the next entry give the state after it. */
  function Step(prev: Result<Scan, UpdateError>, next: Result<Update, UpdateError>, filterMultiple: bool)
    : Result<Scan, UpdateError>
  {
    match prev
    case Err(e) => Err(e)
    case Ok(st) =>
      match next
      case Err(e) => Err(e)
      case Ok(u) =>
        if !filterMultiple then Ok(Scan(st.updates + [u], st.seen))
        else if Identity(u) in st.seen then Ok(st)
        else Ok(Scan(st.updates + [u], st.seen + [Identity(u)]))
  }

  /** The loop of get_windows_updates over `entries`, the first KeyError ending it. */
  function Collect(entries: seq<HistoryEntry>, filterMultiple: bool): Result<Scan, UpdateError> {
    if entries == [] then Ok(Scan([], []))
    else Step(Collect(entries[..|entries| - 1], filterMultiple), MakeUpdate(entries[|entries| - 1]), filterMultiple)
  }

  /** What get_windows_updates returns for the history `entries`. */
  function WindowsUpdates(entries: seq<HistoryEntry>, filterMultiple: bool): Result<seq<Update>, UpdateError> {
    match Collect(entries, filterMultiple)
    case Err(e) => Err(e)
    case Ok(st) => Ok(st.updates)
  }

  /** get_windows_updates over the history the searcher returned (the COM session is a parameter). */
  method GetWindowsUpdates(entries: seq<HistoryEntry>, filterMultiple: bool) returns (r: Result<seq<Update>, UpdateError>)
    ensures r == WindowsUpdates(entries, filterMultiple)
  {
    var updates: seq<Update> := [];
    var alreadySeen: seq<string> := [];
    for i := 0 to |entries|
      invariant Collect(entries[..i], filterMultiple) == Ok(Scan(updates, alreadySeen))
    {
      assert entries[..i + 1][..i] == entries[..i];
      var entry := entries[i];
      var operation := OperationName(entry.operation);
      if operation.None? {
        FailureSticks(entries, i + 1, filterMultiple);
        return Err(UnknownOperation(entry.operation));
      }
      var status := StatusName(entry.resultCode);
      if status.None? {
        FailureSticks(entries, i + 1, filterMultiple);
        return Err(UnknownResult(entry.resultCode));
      }
      var update := Update(None, entry.date, entry.title, entry.description, entry.supportUrl,
                           operation.value, status.value);
      var kb := FindKb(entry.title);
      if kb.Some? {
        update := update.(kb := kb);
      }
      if filterMultiple {
        if update.kb.Some? {
          if update.kb.value in alreadySeen {
            continue;
          }
          alreadySeen := alreadySeen + [kb.value];
        } else {
          if entry.title in alreadySeen {
            continue;
          }
          alreadySeen := alreadySeen + [entry.title];
        }
      }
      updates := updates + [update];
    }
    assert entries[..|entries|] == entries;
    r := Ok(updates);
  }

  /** Once an entry raises, so does the loop over any longer history. */
  lemma {:induction false} FailureSticks(entries: seq<HistoryEntry>, n: nat, filterMultiple: bool)
    requires 0 < n <= |entries|
    requires Collect(entries[..n], filterMultiple).Err?
    ensures Collect(entries, filterMultiple) == Collect(entries[..n], filterMultiple)
    decreases |entries| - n
  {
    if n < |entries| {
      assert entries[..n + 1][..n] == entries[..n];
      FailureSticks(entries, n + 1, filterMultiple);
    } else {
      assert entries[..n] == entries;
    }
  }

  // ---------------------------------------------------------------- properties

  /** Some entry of the history carries an operation or result code outside the two tables. */
  predicate SomeEntryRaises(entries: seq<HistoryEntry>) {
    exists i :: 0 <= i < |entries| && MakeUpdate(entries[i]).Err?
  }

  lemma SomeEntryRaisesSnoc(entries: seq<HistoryEntry>)
    requires entries != []
    ensures SomeEntryRaises(entries)
            <==> SomeEntryRaises(entries[..|entries| - 1]) || MakeUpdate(entries[|entries| - 1]).Err?
  {
    var prefix := entries[..|entries| - 1];
    if SomeEntryRaises(prefix) {
      var i :| 0 <= i < |prefix| && MakeUpdate(prefix[i]).Err?;
      assert entries[i] == prefix[i];
    }
    if SomeEntryRaises(entries) {
      var i :| 0 <= i < |entries| && MakeUpdate(entries[i]).Err?;
      if i < |prefix| {
        assert prefix[i] == entries[i];
      }
    }
  }

  /** The call fails exactly when some entry carries an operation or result code outside the two
      tables, whether or not filtering would have dropped that entry. */
  lemma {:induction false} FailsIffUnknownCode(entries: seq<HistoryEntry>, filterMultiple: bool)
    ensures WindowsUpdates(entries, filterMultiple).Err? <==> SomeEntryRaises(entries)
  {
    if entries != [] {
      var prefix := entries[..|entries| - 1];
      FailsIffUnknownCode(prefix, filterMultiple);
      StepFails(Collect(prefix, filterMultiple), MakeUpdate(entries[|entries| - 1]), filterMultiple);
      SomeEntryRaisesSnoc(entries);
      assert WindowsUpdates(prefix, filterMultiple).Err? <==> Collect(prefix, filterMultiple).Err?;
    }
  }

  /** A turn of the loop fails exactly when the earlier turns failed or the entry raises. */
  lemma StepFails(prev: Result<Scan, UpdateError>, next: Result<Update, UpdateError>, filterMultiple: bool)
    ensures Step(prev, next, filterMultiple).Err? <==> prev.Err? || next.Err?
  {
  }

  /** Without filtering every entry yields one record, in history order. */
  lemma {:induction false} UnfilteredKeepsAll(entries: seq<HistoryEntry>)
    requires WindowsUpdates(entries, false).Ok?
    ensures var us := WindowsUpdates(entries, false).value;
      |us| == |entries| && forall i :: 0 <= i < |entries| ==> MakeUpdate(entries[i]) == Ok(us[i])
  {
    if entries != [] {
      var prefix := entries[..|entries| - 1];
      UnfilteredKeepsAll(prefix);
      forall i | 0 <= i < |prefix| ensures entries[i] == prefix[i] {
      }
    }
  }

  function IdentitySet(us: seq<Update>): set<string> {
    set u | u in us :: Identity(u)
  }

  /** An independent statement of the duplicate filter: of the updates sharing an identity, only
      the first is kept. */
  function KeepFirst(us: seq<Update>): (r: seq<Update>)
  {
    if us == [] then []
    else
      var prefix := us[..|us| - 1];
      var last := us[|us| - 1];
      KeepFirst(prefix) + (if Identity(last) in IdentitySet(prefix) then [] else [last])
  }

  /** With filter_multiple the loop returns exactly the first update of each identity, and its
      `already_seen` list holds the identities of every update seen so far. */
  lemma {:induction false} FilterKeepsFirst(entries: seq<HistoryEntry>)
    ensures Collect(entries, true).Ok? <==> Collect(entries, false).Ok?
    ensures Collect(entries, true).Ok? ==>
      var all := Collect(entries, false).value.updates;
      Collect(entries, true).value.updates == KeepFirst(all)
      && forall x :: x in Collect(entries, true).value.seen <==> x in IdentitySet(all)
  {
    if entries != [] {
      var prefix := entries[..|entries| - 1];
      FilterKeepsFirst(prefix);
      FilterStep(Collect(prefix, true), Collect(prefix, false), MakeUpdate(entries[|entries| - 1]));
    }
  }

  /** The inductive step of FilterKeepsFirst: one turn of the filtering loop and one of the plain
      loop over the same record keep the filtered state the first-of-each-identity of the plain one. */
  lemma FilterStep(filtered: Result<Scan, UpdateError>, plain: Result<Scan, UpdateError>, next: Result<Update, UpdateError>)
    requires filtered.Ok? <==> plain.Ok?
    requires filtered.Ok? ==> filtered.value.updates == KeepFirst(plain.value.updates)
                              && forall x :: x in filtered.value.seen <==> x in IdentitySet(plain.value.updates)
    ensures Step(filtered, next, true).Ok? <==> Step(plain, next, false).Ok?
    ensures Step(filtered, next, true).Ok? ==>
      var all := Step(plain, next, false).value.updates;
      Step(filtered, next, true).value.updates == KeepFirst(all)
      && forall x :: x in Step(filtered, next, true).value.seen <==> x in IdentitySet(all)
  {
    if filtered.Ok? && next.Ok? {
      var seen := filtered.value.seen;
      var all := plain.value.updates;
      var u := next.value;
      KeepFirstSnoc(all, u);
      if Identity(u) !in seen {
        forall x ensures x in seen + [Identity(u)] <==> x in IdentitySet(all + [u]) {
          assert x in seen + [Identity(u)] <==> x in seen || x == Identity(u);
        }
      }
    }
  }

  /** KeepFirst and IdentitySet on one more update. */
  lemma KeepFirstSnoc(us: seq<Update>, u: Update)
    ensures KeepFirst(us + [u]) == KeepFirst(us) + (if Identity(u) in IdentitySet(us) then [] else [u])
    ensures IdentitySet(us + [u]) == IdentitySet(us) + {Identity(u)}
  {
    assert (us + [u])[..|us + [u]| - 1] == us;
  }

  /** The identities of the kept updates are pairwise distinct. */
  lemma {:induction false} KeepFirstDistinct(us: seq<Update>)
    ensures forall i, j :: 0 <= i < j < |KeepFirst(us)| ==> Identity(KeepFirst(us)[i]) != Identity(KeepFirst(us)[j])
    ensures IdentitySet(KeepFirst(us)) == IdentitySet(us)
  {
    if us != [] {
      var prefix := us[..|us| - 1];
      var last := us[|us| - 1];
      KeepFirstDistinct(prefix);
      assert us == prefix + [last];
      assert IdentitySet(us) == IdentitySet(prefix) + {Identity(last)};
      var kept := KeepFirst(prefix);
      if Identity(last) !in IdentitySet(prefix) {
        var r := kept + [last];
        assert IdentitySet(r) == IdentitySet(kept) + {Identity(last)};
        forall i, j | 0 <= i < j < |r| ensures Identity(r[i]) != Identity(r[j]) {
          if j == |r| - 1 {
            assert r[i] in kept;
          } else {
            assert r[i] == kept[i] && r[j] == kept[j];
          }
        }
      }
    }
  }

  /** Every kept update is one of the updates, and they keep their relative order. */
  lemma {:induction false} KeepFirstSubsequence(us: seq<Update>)
    ensures |KeepFirst(us)| <= |us|
    ensures forall u :: u in KeepFirst(us) ==> u in us
  {
    if us != [] {
      var prefix := us[..|us| - 1];
      KeepFirstSubsequence(prefix);
      assert us == prefix + [us[|us| - 1]];
    }
  }

  /** The filtered result, stated against the records of the unfiltered run: every identity of
      the history appears exactly once, carried by the first update that has it. */
  lemma FilteredUpdates(entries: seq<HistoryEntry>)
    requires WindowsUpdates(entries, true).Ok?
    ensures WindowsUpdates(entries, false).Ok?
    ensures var kept := WindowsUpdates(entries, true).value;
      var all := WindowsUpdates(entries, false).value;
      && kept == KeepFirst(all)
      && IdentitySet(kept) == IdentitySet(all)
      && (forall u :: u in kept ==> u in all)
      && forall i, j :: 0 <= i < j < |kept| ==> Identity(kept[i]) != Identity(kept[j])
  {
    FilterKeepsFirst(entries);
    var all := WindowsUpdates(entries, false).value;
    KeepFirstDistinct(all);
    KeepFirstSubsequence(all);
  }
}
