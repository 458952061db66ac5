// windows_tools/file_utils: the permission masks of easy_permissions and the access-control
// entries and flags set_acls hands to the Windows security API.
module FileUtils {
  import opened Wrappers
  import opened Text
  import opened Bits

  // ---------------------------------------------------------------- easy_permissions

  /** The generic access rights as pywin32's ntsecuritycon exposes them: signed 32-bit values, so
      GENERIC_READ (bit 31) is negative. */
  const GenericRead: int := -2147483648
  const GenericWrite: int := 0x4000_0000
  const GenericExecute: int := 0x2000_0000
  const GenericAll: int := 0x1000_0000

  /** The letters accepted, after upper-casing. */
  const EasyNames: seq<string> := ["R", "RX", "RWX", "M", "F"]

  /** easy_permissions; None stands for the ValueError raised on any other text. */
  function EasyPermissions(permission: string): (r: Option<int>)
    ensures r.None? <==> UpperStr(permission) !in EasyNames
    ensures UpperStr(permission) == "R" ==> r == Some(GenericRead)
    ensures UpperStr(permission) == "F" ==> r == Some(GenericAll)
    ensures UpperStr(permission) == "RX" ==> r == Some(Or(GenericRead, GenericExecute))
  {
    var p := UpperStr(permission);
    if p == "R" then Some(GenericRead)
    else if p == "RX" then Some(Or(GenericRead, GenericExecute))
    else if p in ["RWX", "M"] then Some(Or(Or(GenericRead, GenericWrite), GenericExecute))
    else if p == "F" then Some(GenericAll)
    else None
  }

  /** The rights never overlap, so each mask is the sum of its rights. */
  lemma EasyMasksAreSums()
    ensures EasyPermissions("RX") == Some(GenericRead + GenericExecute)
    ensures EasyPermissions("RWX") == Some(GenericRead + GenericWrite + GenericExecute)
  {
    assert UpperStr("RX") == "RX" && UpperStr("RWX") == "RWX";
    Pow2Values();
    assert GenericRead == -1 * Pow2(31);
    OrDisjoint(-1, Pow2(29), 31);
    OrDisjoint(-1, Pow2(30), 31);
    assert GenericRead + GenericWrite == -1 * Pow2(30);
    OrDisjoint(-1, Pow2(29), 30);
  }

  /** The values the module's tests expect, and the rejection of the empty text. */
  lemma EasyPermissionValues()
    ensures EasyPermissions("R") == Some(-2147483648)
    ensures EasyPermissions("RX") == Some(-1610612736)
    ensures EasyPermissions("RWX") == Some(-536870912)
    ensures EasyPermissions("M") == Some(-536870912)
    ensures EasyPermissions("F") == Some(268435456)
    ensures EasyPermissions("") == None
  {
    assert UpperStr("R") == "R" && UpperStr("M") == "M" && UpperStr("F") == "F";
    EasyMasksAreSums();
  }

  /** M is another name for RWX. */
  lemma ModifyIsReadWriteExecute(permission: string)
    requires UpperStr(permission) == "M"
    ensures EasyPermissions(permission) == EasyPermissions("RWX")
  {
    assert UpperStr("RWX") == "RWX";
  }

  /** Lower-case letters are accepted: the text is upper-cased first. */
  lemma EasyPermissionsIgnoreCase(permission: string)
    ensures EasyPermissions(permission) == EasyPermissions(UpperStr(permission))
  {
    UpperStrIdempotent(permission);
  }

  /** The five accepted texts give four distinct masks, RWX and M being the same. */
  lemma EasyMasksDistinct()
    ensures EasyPermissions("R") != EasyPermissions("RX")
    ensures EasyPermissions("RX") != EasyPermissions("RWX")
    ensures EasyPermissions("R") != EasyPermissions("RWX")
    ensures EasyPermissions("F") != EasyPermissions("R")
    ensures EasyPermissions("F") != EasyPermissions("RX")
    ensures EasyPermissions("F") != EasyPermissions("RWX")
  {
    EasyPermissionValues();
  }

  // ---------------------------------------------------------------- set_acls: the flags

  /** win32security's ACE inheritance flags. */
  const ObjectInheritAce: int := 1
  const ContainerInheritAce: int := 2
  const NoInheritance: int := 0

  /** The inheritance flags of every entry: inherited by sub-folders and files, or by nothing. */
  function InheritanceFlags(inheritance: bool): (r: int)
    ensures BitSet(r, 0) <==> inheritance
    ensures BitSet(r, 1) <==> inheritance
  {
    OrBit(ContainerInheritAce, ObjectInheritAce, 0);
    OrBit(ContainerInheritAce, ObjectInheritAce, 1);
    NoBitOfZero(0);
    NoBitOfZero(1);
    if inheritance then Or(ContainerInheritAce, ObjectInheritAce) else NoInheritance
  }

  /** win32security's SECURITY_INFORMATION flags, signed 32-bit values as pywin32 exposes them. */
  const OwnerSecurityInformation: int := 1
  const DaclSecurityInformation: int := 4
  const UnprotectedDaclSecurityInformation: int := 0x2000_0000
  const ProtectedDaclSecurityInformation: int := -2147483648

  const OwnerBit: nat := 0
  const DaclBit: nat := 2
  const UnprotectedBit: nat := 29
  const ProtectedBit: nat := 31

  /** The flags passed to SetNamedSecurityInfo: the DACL, protected from the parent's entries
      unless `inherit`, and the owner when one is given. */
  function SecurityInformationFlags(inherit: bool, hasOwner: bool): int {
    var flags := DaclSecurityInformation;
    var flags := if !inherit then Or(flags, ProtectedDaclSecurityInformation)
                 else Or(flags, UnprotectedDaclSecurityInformation);
    if hasOwner then Or(flags, OwnerSecurityInformation) else flags
  }

  /** Which bit each constant holds; PROTECTED, being negative, sets every bit from 31 up. */
  lemma FlagBits(k: nat)
    ensures BitSet(OwnerSecurityInformation, k) <==> k == OwnerBit
    ensures BitSet(DaclSecurityInformation, k) <==> k == DaclBit
    ensures BitSet(UnprotectedDaclSecurityInformation, k) <==> k == UnprotectedBit
    ensures BitSet(ProtectedDaclSecurityInformation, k) <==> k >= ProtectedBit
  {
    Pow2Values();
    PowBits(0, k);
    PowBits(2, k);
    PowBits(29, k);
    MinusPowBits(31, k);
  }

  /** The flags can be read back: the DACL always, PROTECTED (bit 31 and the sign) exactly when
      `inherit` is false, UNPROTECTED exactly when it is true, OWNER exactly when an owner is
      given, and nothing else. */
  lemma SecurityFlagsMeaning(inherit: bool, hasOwner: bool, k: nat)
    ensures BitSet(SecurityInformationFlags(inherit, hasOwner), k) <==>
      || k == DaclBit
      || (k >= ProtectedBit && !inherit)
      || (k == UnprotectedBit && inherit)
      || (k == OwnerBit && hasOwner)
  {
    FlagBits(k);
    var f1 := DaclSecurityInformation;
    var other := if !inherit then ProtectedDaclSecurityInformation else UnprotectedDaclSecurityInformation;
    OrBit(f1, other, k);
    OrBit(Or(f1, other), OwnerSecurityInformation, k);
  }

  // ---------------------------------------------------------------- set_acls: the entries

  datatype TrusteeType = NotSet | IsUser | IsGroup

  /** win32security's GRANT_ACCESS and TRUSTEE_IS_SID. */
  const GrantAccess: int := 1
  const TrusteeIsSid: int := 0

  /** One EXPLICIT_ACCESS entry as SetEntriesInAcl reads it. */
  datatype AceEntry = AceEntry(accessMode: int, accessPermissions: Option<int>, inheritance: int,
                               trusteeType: TrusteeType, trusteeForm: int, identifier: string)

  /** The dict `security_descriptor`, with its nested trustee dict flattened into it; the
      permissions are None when set_acls is called without them. */
  class Descriptor {
    var accessMode: int
    var accessPermissions: Option<int>
    var inheritance: int
    var trusteeType: TrusteeType
    var trusteeForm: int
    var identifier: string

    constructor(inheritanceFlags: int)
      ensures Entry() == AceEntry(GrantAccess, Some(0), inheritanceFlags, NotSet, TrusteeIsSid, "")
    {
      accessMode := GrantAccess;
      accessPermissions := Some(0);
      inheritance := inheritanceFlags;
      trusteeType := NotSet;
      trusteeForm := TrusteeIsSid;
      identifier := "";
    }

    function Entry(): AceEntry
      reads this
    {
      AceEntry(accessMode, accessPermissions, inheritance, trusteeType, trusteeForm, identifier)
    }

    /** The assignments made for each trustee in either loop. */
    method Assign(permissions: Option<int>, kind: TrusteeType, sid: string)
      modifies this
      ensures Entry() == old(Entry()).(accessPermissions := permissions, trusteeType := kind, identifier := sid)
    {
      accessPermissions := permissions;
      trusteeType := kind;
      identifier := sid;
    }
  }

  /** The trustees in the order the loops visit them: the users, or the current user when neither
      list is given, then the groups. SIDs are taken as given (name lookup is not modelled). */
  function Trustees(users: Option<seq<string>>, groups: Option<seq<string>>, currentUser: string)
    : (r: seq<(TrusteeType, string)>)
    ensures users.None? && groups.None? ==> r == [(IsUser, currentUser)]
  {
    var users := if users.None? && groups.None? then Some([currentUser]) else users;
    UsersAs(OrEmptyList(users), IsUser) + UsersAs(OrEmptyList(groups), IsGroup)
  }

  function OrEmptyList(l: Option<seq<string>>): seq<string> {
    if l.Some? then l.value else []
  }

  function UsersAs(sids: seq<string>, kind: TrusteeType): (r: seq<(TrusteeType, string)>)
    ensures |r| == |sids| && forall i :: 0 <= i < |sids| ==> r[i] == (kind, sids[i])
  {
    if sids == [] then [] else [(kind, sids[0])] + UsersAs(sids[1..], kind)
  }

  /** The entry the source evidently means to make for one trustee. */
  function EntryFor(inheritanceFlags: int, permissions: Option<int>, t: (TrusteeType, string)): AceEntry {
    AceEntry(GrantAccess, permissions, inheritanceFlags, t.0, TrusteeIsSid, t.1)
  }

  /** One entry per trustee, each naming its own trustee. */
  function IntendedEntries(inheritanceFlags: int, permissions: Option<int>, ts: seq<(TrusteeType, string)>)
    : (r: seq<AceEntry>)
    ensures |r| == |ts|
    ensures forall i :: 0 <= i < |ts| ==> r[i] == EntryFor(inheritanceFlags, permissions, ts[i])
  {
    if ts == [] then [] else [EntryFor(inheritanceFlags, permissions, ts[0])] + IntendedEntries(inheritanceFlags, permissions, ts[1..])
  }

  /** What the list holds as written: every element is the one shared dict, so every entry shows
      the last trustee. */
  function AsWrittenEntries(inheritanceFlags: int, permissions: Option<int>, ts: seq<(TrusteeType, string)>)
    : (r: seq<AceEntry>)
    ensures |r| == |ts|
    ensures forall i :: 0 <= i < |ts| ==> r[i] == EntryFor(inheritanceFlags, permissions, ts[|ts| - 1])
  {
    if ts == [] then [] else Repeat(EntryFor(inheritanceFlags, permissions, ts[|ts| - 1]), |ts|)
  }

  function Repeat<T>(x: T, n: nat): (r: seq<T>)
    ensures |r| == n && forall i :: 0 <= i < n ==> r[i] == x
  {
    if n == 0 then [] else [x] + Repeat(x, n - 1)
  }

  /** The entries the list's elements show. */
  function Snapshot(ds: seq<Descriptor>): (r: seq<AceEntry>)
    reads set d | d in ds
    ensures |r| == |ds| && forall i :: 0 <= i < |ds| ==> r[i] == ds[i].Entry()
  {
    if ds == [] then [] else [ds[0].Entry()] + Snapshot(ds[1..])
  }

  /** One of the two loops of set_acls: for each SID the shared dict `s` is updated and appended
      again, so the list grows by the same object once per SID and `s` ends up showing the last. */
  method AppendTrustees(s: Descriptor, descriptors: seq<Descriptor>, sids: seq<string>, kind: TrusteeType,
                        permissions: Option<int>)
    returns (r: seq<Descriptor>)
    requires forall k :: 0 <= k < |descriptors| ==> descriptors[k] == s
    modifies s
    ensures |r| == |descriptors| + |sids| && forall k :: 0 <= k < |r| ==> r[k] == s
    ensures s.Entry() == Assigned(old(s.Entry()), permissions, kind, sids)
  {
    r := descriptors;
    for i := 0 to |sids|
      invariant |r| == |descriptors| + i && forall k :: 0 <= k < |r| ==> r[k] == s
      invariant s.Entry() == Assigned(old(s.Entry()), permissions, kind, sids[..i])
    {
      s.Assign(permissions, kind, sids[i]);
      r := r + [s];
    }
  }

  /** The entry the shared dict shows after one loop has assigned each SID in turn. */
  function Assigned(e: AceEntry, permissions: Option<int>, kind: TrusteeType, sids: seq<string>): AceEntry {
    if |sids| == 0 then e else e.(accessPermissions := permissions, trusteeType := kind, identifier := sids[|sids| - 1])
  }

  /** After both loops the shared dict shows the trustee visited last: the last group, or the
      last user when there is none. */
  lemma {:induction false} LastTrustee(flags: int, permissions: Option<int>, u: seq<string>, g: seq<string>)
    ensures var ts := UsersAs(u, IsUser) + UsersAs(g, IsGroup);
      |ts| > 0 ==> Assigned(Assigned(AceEntry(GrantAccess, Some(0), flags, NotSet, TrusteeIsSid, ""), permissions, IsUser, u),
                            permissions, IsGroup, g)
                   == EntryFor(flags, permissions, ts[|ts| - 1])
  {
    var ts := UsersAs(u, IsUser) + UsersAs(g, IsGroup);
    if |g| > 0 {
      assert ts[|ts| - 1] == UsersAs(g, IsGroup)[|g| - 1];
    } else if |u| > 0 {
      assert ts[|ts| - 1] == UsersAs(u, IsUser)[|u| - 1];
    }
  }

  /** A list holding one object shows that object's entry throughout. */
  lemma SnapshotOfShared(ds: seq<Descriptor>, e: AceEntry)
    requires forall k :: 0 <= k < |ds| ==> ds[k].Entry() == e
    ensures Snapshot(ds) == Repeat(e, |ds|)
  {
  }

  /** Both loops of set_acls: the list holds the one dict once per trustee. */
  method BuildDescriptors(users: Option<seq<string>>, groups: Option<seq<string>>, currentUser: string,
                          permissions: Option<int>, inheritance: bool)
    returns (descriptors: seq<Descriptor>)
    ensures |descriptors| == |Trustees(users, groups, currentUser)|
    ensures forall i, j :: 0 <= i < |descriptors| && 0 <= j < |descriptors| ==> descriptors[i] == descriptors[j]
    ensures forall i :: 0 <= i < |descriptors| ==> fresh(descriptors[i])
    ensures Snapshot(descriptors) == AsWrittenEntries(InheritanceFlags(inheritance), permissions, Trustees(users, groups, currentUser))
  {
    var flags := InheritanceFlags(inheritance);
    var s := new Descriptor(flags);
    var userList := users;
    if users.None? && groups.None? {
      userList := Some([currentUser]);
    }
    var u := OrEmptyList(userList);
    var g := OrEmptyList(groups);
    descriptors := AppendTrustees(s, [], u, IsUser, permissions);
    descriptors := AppendTrustees(s, descriptors, g, IsGroup, permissions);
    ghost var ts := Trustees(users, groups, currentUser);
    assert ts == UsersAs(u, IsUser) + UsersAs(g, IsGroup);
    LastTrustee(flags, permissions, u, g);
    SnapshotOfShared(descriptors, s.Entry());
  }

  /** set_acls up to the calls into the security API: the entries given to SetEntriesInAcl, in
      list order, and the flags given to SetNamedSecurityInfo. Reading the existing DACL, owner
      name lookup and the API calls themselves are not modelled. */
  method SetAcls(users: Option<seq<string>>, groups: Option<seq<string>>, currentUser: string,
                 owner: Option<string>, permissions: Option<int>, inherit: bool, inheritance: bool)
    returns (entries: seq<AceEntry>, flags: int)
    ensures entries == AsWrittenEntries(InheritanceFlags(inheritance), permissions, Trustees(users, groups, currentUser))
    ensures flags == SecurityInformationFlags(inherit, owner.Some?)
  {
    var descriptors := BuildDescriptors(users, groups, currentUser, permissions, inheritance);
    entries := Snapshot(descriptors);
    flags := SecurityInformationFlags(inherit, owner.Some?);
  }

  /** The entries as written agree with one entry per trustee exactly when every trustee is the
      same one. */
  lemma AsWrittenIsIntendedIff(inheritanceFlags: int, permissions: Option<int>, ts: seq<(TrusteeType, string)>)
    ensures AsWrittenEntries(inheritanceFlags, permissions, ts) == IntendedEntries(inheritanceFlags, permissions, ts)
            <==> forall i :: 0 <= i < |ts| ==> ts[i] == ts[|ts| - 1]
  {
    var w := AsWrittenEntries(inheritanceFlags, permissions, ts);
    var e := IntendedEntries(inheritanceFlags, permissions, ts);
    if w == e {
      forall i | 0 <= i < |ts| ensures ts[i] == ts[|ts| - 1] {
        assert EntryFor(inheritanceFlags, permissions, ts[i]) == EntryFor(inheritanceFlags, permissions, ts[|ts| - 1]);
      }
    }
    if forall i :: 0 <= i < |ts| ==> ts[i] == ts[|ts| - 1] {
      assert forall i :: 0 <= i < |ts| ==> w[i] == e[i];
    }
  }

  /** Two users: the entry for the first is lost, both entries name the second. */
  lemma TwoUsersKeepOnlyTheLast()
    ensures var ts := Trustees(Some(["alice", "bob"]), None, "me");
      && AsWrittenEntries(0, Some(GenericAll), ts) == [EntryFor(0, Some(GenericAll), (IsUser, "bob")), EntryFor(0, Some(GenericAll), (IsUser, "bob"))]
      && IntendedEntries(0, Some(GenericAll), ts)[0].identifier == "alice"
  {
    var ts := Trustees(Some(["alice", "bob"]), None, "me");
    assert ts == [(IsUser, "alice"), (IsUser, "bob")];
  }
}
