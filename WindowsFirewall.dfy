// windows_tools/windows_firewall: whether the Windows firewall is on, read from the registry.
module WindowsFirewall {
  import opened Wrappers
  import opened Registry

  /** The key each of the three reads uses (the standard profile, for all three). */
  const StandardProfile: KeyRef := KeyRef(HKEY_LOCAL_MACHINE,
    ["SYSTEM", "CurrentControlSet", "Services", "SharedAccess", "Parameters", "FirewallPolicy", "StandardProfile"])

  /** One read: the value, or 0 when get_value raises FileNotFoundError. */
  function ReadOrZero(reg: RegState, key: KeyRef): Value {
    var v := LookupValue(reg, key, "EnableFirewall", Default);
    if v.Some? then v.value else Int(0)
  }

  /** Python's `x == 1` for a registry value: only the integer 1 compares equal. */
  predicate IsOne(v: Value) {
    v == Int(1)
  }

  /** is_firewall_active: the standard, domain and public reads, true when one of them is 1. */
  function IsFirewallActive(reg: RegState): (r: bool)
    ensures r <==> LookupValue(reg, StandardProfile, "EnableFirewall", Default) == Some(Int(1))
  {
    var fwStd := ReadOrZero(reg, StandardProfile);
    var fwDom := ReadOrZero(reg, StandardProfile);
    var fwPub := ReadOrZero(reg, StandardProfile);
    IsOne(fwStd) || IsOne(fwDom) || IsOne(fwPub)
  }

  /** A missing value, a 0 and the text "1" all read as inactive. */
  lemma InactiveReads(reg: RegState)
    ensures LookupValue(reg, StandardProfile, "EnableFirewall", Default).None? ==> !IsFirewallActive(reg)
    ensures LookupValue(reg, StandardProfile, "EnableFirewall", Default) == Some(Int(0)) ==> !IsFirewallActive(reg)
    ensures LookupValue(reg, StandardProfile, "EnableFirewall", Default) == Some(Str("1")) ==> !IsFirewallActive(reg)
  {
  }
}
