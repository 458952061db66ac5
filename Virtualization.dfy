// windows_tools/virtualization: check_for_virtualization, the hypervisor fingerprinting over the
// WMI answers gathered by get_relevant_platform_info (passed in here as a value).
module Virtualization {
  import opened Wrappers
  import opened Text
  import opened WmiQueries

  /** One WMI answer as get_relevant_platform_info stores it: its properties in the order the
      dictionary yields them. */
  type Record = seq<(string, WmiValue)>

  /** The platform information: the answers under their names ('computersystem', 'baseboard', ...),
      in insertion order. */
  type PlatformInfo = seq<(string, Record)>

  /** The hypervisor names searched for, oVirt first so that it wins over KVM and qemu. */
  const VirtProducts: seq<string> := ["oVirt", "VBOX", "VMWare", "Hyper-V", "Xen", "KVM", "qemu", "bochs", "VRTUAL"]

  const NoHypervisor: string := "Physical / Unknown hypervisor"

  /** The pair check_for_virtualization returns. */
  datatype Verdict = Verdict(isVirtual: bool, product: string)

  // ---------------------------------------------------------------- re.search(name, value, re.IGNORECASE)

  /** `pat` matches `s` at index `i`, character by character, ignoring case. */
  predicate IcOccursAt(s: string, pat: string, i: int) {
    0 <= i && i + |pat| <= |s| && forall k :: 0 <= k < |pat| ==> IgnoreCaseEq(s[i + k], pat[k])
  }

  /** `re.search(pat, s, re.IGNORECASE)` for a pattern without special characters, scanning from
      the left. */
  function IcSearch(s: string, pat: string): (b: bool)
    ensures b <==> exists i :: IcOccursAt(s, pat, i)
    decreases |s|
  {
    if |pat| > |s| then false
    else if forall k :: 0 <= k < |pat| ==> IgnoreCaseEq(s[k], pat[k]) then
      assert IcOccursAt(s, pat, 0);
      true
    else
      var rest := IcSearch(s[1..], pat);
      if rest then
        var i :| IcOccursAt(s[1..], pat, i);
        assert IcOccursAt(s, pat, i + 1);
        true
      else
        assert forall i :: IcOccursAt(s, pat, i) ==> IcOccursAt(s[1..], pat, i - 1) by {
          forall i | IcOccursAt(s, pat, i) ensures IcOccursAt(s[1..], pat, i - 1) {
            assert i != 0;
          }
        }
        false
  }

  // ---------------------------------------------------------------- the nested search

  /** Microsoft's misspelt SMBIOS version string stands for Hyper-V. */
  function Reported(name: string): string {
    if name == "VRTUAL" then "Hyper-V" else name
  }

  /** The index of the first hypervisor name, from index `i` on, found in `s`; |VirtProducts|
      when there is none. */
  function FirstProduct(s: string, i: nat): (k: nat)
    requires i <= |VirtProducts|
    ensures i <= k <= |VirtProducts|
    ensures forall j :: i <= j < k ==> !IcSearch(s, VirtProducts[j])
    ensures k < |VirtProducts| ==> IcSearch(s, VirtProducts[k])
    decreases |VirtProducts| + |s| - i
  {
    if i == |VirtProducts| then i
    else if IcSearch(s, VirtProducts[i]) then i
    else FirstProduct(s, i + 1)
  }

  /** Some hypervisor name occurs in `s`. */
  predicate AnyProduct(s: string) {
    exists k :: 0 <= k < |VirtProducts| && IcSearch(s, VirtProducts[k])
  }

  /** The loop over the hypervisor names for one str value: the first name found, as reported. */
  function TextHit(s: string): (r: Option<string>)
    ensures r.None? <==> !AnyProduct(s)
    ensures r.Some? ==> r.value in VirtProducts && r.value != "VRTUAL"
  {
    var k := FirstProduct(s, 0);
    if k < |VirtProducts| then
      assert VirtProducts[3] == "Hyper-V";
      Some(Reported(VirtProducts[k]))
    else None
  }

  /** The test on one property: only str values are examined. */
  function ValueHit(v: WmiValue): Option<string> {
    if v.Text? then TextHit(v.s) else None
  }

  /** The loop over the properties of one answer, returning at the first hit. */
  function RecordHit(rec: Record): Option<string> {
    if rec == [] then None
    else
      match ValueHit(rec[0].1)
      case Some(p) => Some(p)
      case None => RecordHit(rec[1..])
  }

  /** The loop over the answers, returning at the first hit. */
  function InfoHit(info: PlatformInfo): Option<string> {
    if info == [] then None
    else
      match RecordHit(info[0].1)
      case Some(p) => Some(p)
      case None => InfoHit(info[1..])
  }

  /** check_for_virtualization. */
  function CheckForVirtualization(info: PlatformInfo): (r: Verdict)
    ensures r.isVirtual <==> InfoHit(info).Some?
    ensures !r.isVirtual ==> r.product == NoHypervisor
    ensures r.isVirtual ==> r.product in VirtProducts && r.product != "VRTUAL"
  {
    match InfoHit(info)
    case None => Verdict(false, NoHypervisor)
    case Some(p) =>
      HitIsProduct(info);
      Verdict(true, p)
  }

  // ---------------------------------------------------------------- the search it performs

  /** The str values of the answers, answer by answer and property by property. */
  function Texts(info: PlatformInfo): seq<string> {
    if info == [] then [] else RecordTexts(info[0].1) + Texts(info[1..])
  }

  function RecordTexts(rec: Record): seq<string> {
    if rec == [] then []
    else (if rec[0].1.Text? then [rec[0].1.s] else []) + RecordTexts(rec[1..])
  }

  /** The reference search over the flattened str values: the first value holding some name. */
  function FirstHit(texts: seq<string>): Option<string> {
    if texts == [] then None
    else if TextHit(texts[0]).Some? then TextHit(texts[0])
    else FirstHit(texts[1..])
  }

  lemma {:induction false} RecordHitIsFirstHit(rec: Record, rest: seq<string>)
    ensures RecordHit(rec) == None ==> FirstHit(RecordTexts(rec) + rest) == FirstHit(rest)
    ensures RecordHit(rec) != None ==> FirstHit(RecordTexts(rec) + rest) == RecordHit(rec)
  {
    if rec != [] {
      RecordHitIsFirstHit(rec[1..], rest);
      var tail := RecordTexts(rec[1..]) + rest;
      RecordTextsCons(rec, rest);
      ValueFirstHit(rec[0].1, tail);
    } else {
      assert RecordTexts(rec) + rest == rest;
    }
  }

  /** The str values of a non-empty answer: those of its first property, then the others. */
  lemma RecordTextsCons(rec: Record, rest: seq<string>)
    requires rec != []
    ensures RecordTexts(rec) + rest == ValueTexts(rec[0].1) + (RecordTexts(rec[1..]) + rest)
  {
  }

  /** The str value of one property, if it has one. */
  function ValueTexts(v: WmiValue): seq<string> {
    if v.Text? then [v.s] else []
  }

  /** The reference search over one property's value, then the rest, agrees with the test on the
      property followed by the search over the rest. */
  lemma ValueFirstHit(v: WmiValue, tail: seq<string>)
    ensures FirstHit(ValueTexts(v) + tail) == if ValueHit(v).Some? then ValueHit(v) else FirstHit(tail)
  {
    if v.Text? {
      assert ([v.s] + tail)[0] == v.s && ([v.s] + tail)[1..] == tail;
    } else {
      assert ValueTexts(v) + tail == tail;
    }
  }

  /** The nested loops are the search for the first str value holding a hypervisor name: the
      answers and their properties in order, and the names in the fixed order within a value. */
  lemma {:induction false} InfoHitIsFirstHit(info: PlatformInfo)
    ensures InfoHit(info) == FirstHit(Texts(info))
  {
    if info != [] {
      InfoHitIsFirstHit(info[1..]);
      RecordHitIsFirstHit(info[0].1, Texts(info[1..]));
    }
  }

  /** The reference search finds nothing exactly when no value holds a name. */
  lemma {:induction false} FirstHitNone(texts: seq<string>)
    ensures FirstHit(texts).None? <==> forall j :: 0 <= j < |texts| ==> !AnyProduct(texts[j])
  {
    if texts != [] {
      FirstHitNone(texts[1..]);
      assert forall j :: 1 <= j < |texts| ==> texts[j] == texts[1..][j - 1];
    }
  }

  /** What it finds is the hit of the first value holding a name. */
  lemma {:induction false} FirstHitFirst(texts: seq<string>)
    ensures FirstHit(texts).Some? ==>
      exists j :: 0 <= j < |texts| && (forall i :: 0 <= i < j ==> !AnyProduct(texts[i]))
                  && FirstHit(texts) == TextHit(texts[j])
  {
    if texts != [] && TextHit(texts[0]).None? {
      FirstHitFirst(texts[1..]);
      if FirstHit(texts).Some? {
        var j :| 0 <= j < |texts[1..]| && (forall i :: 0 <= i < j ==> !AnyProduct(texts[1..][i]))
          && FirstHit(texts[1..]) == TextHit(texts[1..][j]);
        assert forall i :: 1 <= i < j + 1 ==> texts[i] == texts[1..][i - 1];
        assert texts[j + 1] == texts[1..][j];
      }
    }
  }

  /** A reported hypervisor is one of the names, never the misspelling. */
  lemma {:induction false} HitIsProduct(info: PlatformInfo)
    ensures InfoHit(info).Some? ==> InfoHit(info).value in VirtProducts && InfoHit(info).value != "VRTUAL"
  {
    if info != [] {
      HitIsProduct(info[1..]);
      RecordHitIsProduct(info[0].1);
    }
  }

  lemma {:induction false} RecordHitIsProduct(rec: Record)
    ensures RecordHit(rec).Some? ==> RecordHit(rec).value in VirtProducts && RecordHit(rec).value != "VRTUAL"
  {
    if rec != [] {
      RecordHitIsProduct(rec[1..]);
    }
  }

  /** A platform is reported virtual exactly when one of its str values holds a hypervisor name;
      values of other types are never looked at. */
  lemma VirtualIffSomeName(info: PlatformInfo)
    ensures CheckForVirtualization(info).isVirtual <==> exists j :: 0 <= j < |Texts(info)| && AnyProduct(Texts(info)[j])
  {
    InfoHitIsFirstHit(info);
    FirstHitNone(Texts(info));
  }

  /** When it is, the product is that of the first str value holding a name. */
  lemma ReportsFirstValue(info: PlatformInfo)
    requires CheckForVirtualization(info).isVirtual
    ensures exists j :: 0 <= j < |Texts(info)| && (forall i :: 0 <= i < j ==> !AnyProduct(Texts(info)[i]))
                        && Some(CheckForVirtualization(info).product) == TextHit(Texts(info)[j])
  {
    InfoHitIsFirstHit(info);
    FirstHitFirst(Texts(info));
  }

  /** A value holding oVirt reports oVirt, whatever other names (KVM, qemu) it holds too. */
  lemma OVirtWins(s: string)
    requires IcSearch(s, "oVirt")
    ensures TextHit(s) == Some("oVirt")
  {
    assert VirtProducts[0] == "oVirt";
  }

  /** A value holding VRTUAL but no earlier name is reported as Hyper-V. */
  lemma VrtualIsHyperV(s: string)
    requires forall k :: 0 <= k < 8 ==> !IcSearch(s, VirtProducts[k])
    requires IcSearch(s, "VRTUAL")
    ensures TextHit(s) == Some("Hyper-V")
  {
    assert VirtProducts[8] == "VRTUAL";
    assert FirstProduct(s, 0) == 8;
  }
}
