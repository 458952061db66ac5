// windows_tools/logical_disks: the drive letters of the machine, from win32api (network drives
// included) or psutil (local partitions), filtered by filesystem, with a drive-letter probe as the
// fallback.
module LogicalDisks {
  import opened Wrappers
  import opened Text

  /** One entry of psutil.disk_partitions(). */
  datatype Partition = Partition(device: string, fstype: string)

  /** What the operating system answers. `None` stands for the call raising. */
  datatype Host = Host(
    driveStrings: Option<string>,    // win32api.GetLogicalDriveStrings()
    volumes: map<string, string>,     // the filesystem name GetVolumeInformation gives each drive; absent: it raises
    partitions: Option<seq<Partition>>, // psutil.disk_partitions()
    existing: Option<set<string>>)    // the paths os.path.exists accepts

  /** `include_fs` is used only when truthy: None and the empty list both mean "no filter". */
  predicate Filtering(includeFs: Option<seq<string>>) {
    includeFs.Some? && includeFs.value != []
  }

  // ---------------------------------------------------------------- _get_logical_disks_win32api

  /** `s.split("\000")[:-1]`: the NUL-terminated drive names. */
  function DriveList(s: string): seq<string> {
    var parts := Split(s, '\0');
    parts[..|parts| - 1]
  }

  /** Whether the filtering loop keeps `drive`: its filesystem is listed, or it cannot be read
      and unknown filesystems are not excluded. */
  predicate KeepVolume(volumes: map<string, string>, drive: string, includeFs: seq<string>, excludeUnknownFs: bool) {
    if drive in volumes then volumes[drive] in includeFs else !excludeUnknownFs
  }

  /** The drives the filtering loop keeps, in order. */
  function FilterVolumes(drives: seq<string>, volumes: map<string, string>, includeFs: seq<string>, excludeUnknownFs: bool): seq<string> {
    if drives == [] then []
    else
      var last := drives[|drives| - 1];
      FilterVolumes(drives[..|drives| - 1], volumes, includeFs, excludeUnknownFs)
        + (if KeepVolume(volumes, last, includeFs, excludeUnknownFs) then [last] else [])
  }

  /** `[drive.rstrip("\\") for drive in drives]`. */
  function StripEach(drives: seq<string>): (r: seq<string>)
    ensures |r| == |drives|
  {
    if drives == [] then [] else StripEach(drives[..|drives| - 1]) + [RStrip(drives[|drives| - 1], '\\')]
  }

  /** What _get_logical_disks_win32api returns for the drive string `s`. */
  function Win32ApiDrives(s: string, volumes: map<string, string>, includeFs: Option<seq<string>>, excludeUnknownFs: bool): seq<string> {
    var drives := DriveList(s);
    StripEach(if Filtering(includeFs) then FilterVolumes(drives, volumes, includeFs.value, excludeUnknownFs) else drives)
  }

  /** _get_logical_disks_win32api; `None` when GetLogicalDriveStrings raises (a failing
      GetVolumeInformation is handled inside the loop). */
  method LogicalDisksWin32Api(host: Host, includeFs: Option<seq<string>>, excludeUnknownFs: bool) returns (r: Option<seq<string>>)
    ensures r.None? <==> host.driveStrings.None?
    ensures r.Some? ==> r.value == Win32ApiDrives(host.driveStrings.value, host.volumes, includeFs, excludeUnknownFs)
  {
    if host.driveStrings.None? {
      return None;
    }
    var drives := DriveList(host.driveStrings.value);
    if Filtering(includeFs) {
      var filtered: seq<string> := [];
      for i := 0 to |drives|
        invariant filtered == FilterVolumes(drives[..i], host.volumes, includeFs.value, excludeUnknownFs)
      {
        var drive := drives[i];
        if drive in host.volumes {
          if host.volumes[drive] in includeFs.value {
            filtered := filtered + [drive];
          }
        } else if !excludeUnknownFs {
          filtered := filtered + [drive];
        }
        assert drives[..i + 1][..i] == drives[..i];
      }
      assert drives[..|drives|] == drives;
      drives := filtered;
    }
    var stripped := StripAll(drives);
    r := Some(stripped);
  }

  /** The comprehension removing the trailing backslashes. */
  method StripAll(drives: seq<string>) returns (r: seq<string>)
    ensures r == StripEach(drives)
  {
    r := [];
    for i := 0 to |drives|
      invariant r == StripEach(drives[..i])
    {
      r := r + [RStrip(drives[i], '\\')];
      assert drives[..i + 1][..i] == drives[..i];
    }
    assert drives[..|drives|] == drives;
  }

  // ---------------------------------------------------------------- _get_logical_disks_psutil

  /** Whether the psutil loop keeps a partition: every one without a filter; with one, a listed
      filesystem, or an empty one when unknown filesystems are not excluded. */
  predicate KeepPartition(p: Partition, includeFs: Option<seq<string>>, excludeUnknownFs: bool) {
    if Filtering(includeFs) then p.fstype in includeFs.value || (!excludeUnknownFs && p.fstype == "")
    else true
  }

  function KeptDevices(parts: seq<Partition>, includeFs: Option<seq<string>>, excludeUnknownFs: bool): seq<string> {
    if parts == [] then []
    else
      var last := parts[|parts| - 1];
      KeptDevices(parts[..|parts| - 1], includeFs, excludeUnknownFs)
        + (if KeepPartition(last, includeFs, excludeUnknownFs) then [last.device] else [])
  }

  /** _get_logical_disks_psutil; `None` when disk_partitions raises. */
  method LogicalDisksPsutil(host: Host, includeFs: Option<seq<string>>, excludeUnknownFs: bool) returns (r: Option<seq<string>>)
    ensures r.None? <==> host.partitions.None?
    ensures r.Some? ==> r.value == StripEach(KeptDevices(host.partitions.value, includeFs, excludeUnknownFs))
  {
    if host.partitions.None? {
      return None;
    }
    var drps := host.partitions.value;
    var drives: seq<string> := [];
    for i := 0 to |drps|
      invariant drives == KeptDevices(drps[..i], includeFs, excludeUnknownFs)
    {
      var dp := drps[i];
      if Filtering(includeFs) {
        if dp.fstype in includeFs.value {
          drives := drives + [dp.device];
        } else if !excludeUnknownFs && dp.fstype == "" {
          drives := drives + [dp.device];
        }
      } else {
        drives := drives + [dp.device];
      }
      assert drps[..i + 1][..i] == drps[..i];
    }
    assert drps[..|drps|] == drps;
    var stripped := StripAll(drives);
    r := Some(stripped);
  }

  // ---------------------------------------------------------------- _get_logical_disks_plaintest

  /** `chr(x) + ":"`. */
  function DriveName(x: int): string
    requires 65 <= x < 91
  {
    [x as char, ':']
  }

  /** The comprehension over the letters from `chr(x)` to Z that exist. */
  function ExistingFrom(existing: set<string>, x: int): (r: seq<string>)
    requires 65 <= x <= 91
    ensures forall i :: 0 <= i < |r| ==> |r[i]| == 2 && r[i][1] == ':'
    decreases |existing| + 91 - x
  {
    if x == 91 then []
    else (if DriveName(x) in existing then [DriveName(x)] else []) + ExistingFrom(existing, x + 1)
  }

  /** _get_logical_disks_plaintest. */
  function PlainDrives(existing: set<string>): (r: seq<string>)
    ensures forall i :: 0 <= i < |r| ==> |r[i]| == 2 && r[i][1] == ':'
  {
    ExistingFrom(existing, 65)
  }

  // ---------------------------------------------------------------- get_logical_disks

  /** get_logical_disks: win32api when network drives are wanted, psutil otherwise; the letter
      probe when that raises; None when the probe raises too. */
  method GetLogicalDisks(host: Host, includeFs: Option<seq<string>>, excludeUnknownFs: bool, includeNetworkDrives: bool)
    returns (r: Option<seq<string>>)
    ensures includeNetworkDrives && host.driveStrings.Some? ==>
      r == Some(Win32ApiDrives(host.driveStrings.value, host.volumes, includeFs, excludeUnknownFs))
    ensures !includeNetworkDrives && host.partitions.Some? ==>
      r == Some(StripEach(KeptDevices(host.partitions.value, includeFs, excludeUnknownFs)))
    ensures (if includeNetworkDrives then host.driveStrings.None? else host.partitions.None?) ==>
      r == (if host.existing.Some? then Some(PlainDrives(host.existing.value)) else None)
  {
    if includeNetworkDrives {
      var drives := LogicalDisksWin32Api(host, includeFs, excludeUnknownFs);
      if drives.Some? {
        return drives;
      }
    } else {
      var drives := LogicalDisksPsutil(host, includeFs, excludeUnknownFs);
      if drives.Some? {
        return drives;
      }
    }
    if host.existing.Some? {
      return Some(PlainDrives(host.existing.value));
    }
    return None;
  }

  // ---------------------------------------------------------------- properties

  /** The filter keeps exactly the drives whose filesystem is listed, and those whose filesystem
      cannot be read unless they are excluded. */
  lemma {:induction false} FilterVolumesMembers(drives: seq<string>, volumes: map<string, string>, includeFs: seq<string>, excludeUnknownFs: bool)
    ensures forall d :: (d in FilterVolumes(drives, volumes, includeFs, excludeUnknownFs)
                         <==> d in drives && KeepVolume(volumes, d, includeFs, excludeUnknownFs))
  {
    if drives != [] {
      var init := drives[..|drives| - 1];
      FilterVolumesMembers(init, volumes, includeFs, excludeUnknownFs);
      assert drives == init + [drives[|drives| - 1]];
    }
  }

  /** `a` is `b` with some elements left out, the rest in their order. */
  predicate Subsequence<T(==)>(a: seq<T>, b: seq<T>)
    decreases |b|
  {
    if b == [] then a == []
    else
      || (a != [] && a[|a| - 1] == b[|b| - 1] && Subsequence(a[..|a| - 1], b[..|b| - 1]))
      || Subsequence(a, b[..|b| - 1])
  }

  /** The filter preserves the drive order. */
  lemma {:induction false} FilterVolumesOrder(drives: seq<string>, volumes: map<string, string>, includeFs: seq<string>, excludeUnknownFs: bool)
    ensures Subsequence(FilterVolumes(drives, volumes, includeFs, excludeUnknownFs), drives)
  {
    if drives != [] {
      var init := drives[..|drives| - 1];
      var last := drives[|drives| - 1];
      var f := FilterVolumes(init, volumes, includeFs, excludeUnknownFs);
      FilterVolumesOrder(init, volumes, includeFs, excludeUnknownFs);
      if KeepVolume(volumes, last, includeFs, excludeUnknownFs) {
        assert (f + [last])[..|f|] == f;
      } else {
        assert FilterVolumes(drives, volumes, includeFs, excludeUnknownFs) == f;
      }
    }
  }

  /** psutil's loop returns the device of exactly the partitions it keeps. */
  lemma {:induction false} KeptDevicesMembers(parts: seq<Partition>, includeFs: Option<seq<string>>, excludeUnknownFs: bool)
    ensures forall d :: (d in KeptDevices(parts, includeFs, excludeUnknownFs)
                         <==> exists k :: 0 <= k < |parts| && parts[k].device == d && KeepPartition(parts[k], includeFs, excludeUnknownFs))
  {
    if parts != [] {
      var init := parts[..|parts| - 1];
      KeptDevicesMembers(init, includeFs, excludeUnknownFs);
      assert forall k :: 0 <= k < |init| ==> init[k] == parts[k];
    }
  }

  /** Without a filter psutil's loop keeps every partition, in order. */
  lemma {:induction false} KeptDevicesUnfiltered(parts: seq<Partition>, includeFs: Option<seq<string>>, excludeUnknownFs: bool)
    requires !Filtering(includeFs)
    ensures |KeptDevices(parts, includeFs, excludeUnknownFs)| == |parts|
    ensures forall k :: 0 <= k < |parts| ==> KeptDevices(parts, includeFs, excludeUnknownFs)[k] == parts[k].device
  {
    if parts != [] {
      KeptDevicesUnfiltered(parts[..|parts| - 1], includeFs, excludeUnknownFs);
    }
  }

  /** Without a filter every drive is returned, in order, only its trailing backslashes removed. */
  lemma NoFilterKeepsAll(s: string, volumes: map<string, string>, includeFs: Option<seq<string>>, excludeUnknownFs: bool)
    requires !Filtering(includeFs)
    ensures Win32ApiDrives(s, volumes, includeFs, excludeUnknownFs) == StripEach(DriveList(s))
  {
  }

  /** Every returned drive is the listed one with all its trailing backslashes removed. */
  lemma {:induction false} StripEachAt(drives: seq<string>, i: int)
    requires 0 <= i < |drives|
    ensures StripEach(drives)[i] == RStrip(drives[i], '\\')
    ensures StripEach(drives)[i] == [] || StripEach(drives)[i][|StripEach(drives)[i]| - 1] != '\\'
    decreases |drives|
  {
    if i < |drives| - 1 {
      StripEachAt(drives[..|drives| - 1], i);
    }
  }

  /** The drive string GetLogicalDriveStrings gives for `drives`: each name followed by a NUL. */
  function DriveStrings(drives: seq<string>): string {
    if drives == [] then "" else drives[0] + "\0" + DriveStrings(drives[1..])
  }

  lemma {:induction false} SplitDriveStrings(drives: seq<string>)
    requires forall k :: 0 <= k < |drives| ==> '\0' !in drives[k]
    ensures Split(DriveStrings(drives), '\0') == drives + [""]
  {
    if drives != [] {
      SplitDriveStrings(drives[1..]);
      SplitAfter(drives[0], DriveStrings(drives[1..]), '\0');
      assert drives == [drives[0]] + drives[1..];
    }
  }

  /** Splitting on NUL and dropping the last element gives back the drive names. */
  lemma DriveListRoundTrip(drives: seq<string>)
    requires forall k :: 0 <= k < |drives| ==> '\0' !in drives[k]
    ensures DriveList(DriveStrings(drives)) == drives
  {
    SplitDriveStrings(drives);
    assert (drives + [""])[..|drives|] == drives;
  }

  /** The probe lists exactly the existing drive names, A: to Z:, in alphabetical order. */
  lemma {:induction false} ExistingFromMembers(existing: set<string>, x: int)
    requires 65 <= x <= 91
    ensures forall d :: d in ExistingFrom(existing, x) <==> d in existing && exists y :: x <= y < 91 && d == DriveName(y)
    ensures forall i, j :: 0 <= i < j < |ExistingFrom(existing, x)| ==> ExistingFrom(existing, x)[i][0] < ExistingFrom(existing, x)[j][0]
    ensures forall i :: 0 <= i < |ExistingFrom(existing, x)| ==> x as char <= ExistingFrom(existing, x)[i][0]
    decreases 91 - x
  {
    if x < 91 {
      ExistingFromMembers(existing, x + 1);
    }
  }

  lemma PlainDrivesOrdered(existing: set<string>)
    ensures forall d :: d in PlainDrives(existing) <==> d in existing && exists y :: 65 <= y < 91 && d == DriveName(y)
    ensures forall i, j :: 0 <= i < j < |PlainDrives(existing)| ==> PlainDrives(existing)[i][0] < PlainDrives(existing)[j][0]
  {
    ExistingFromMembers(existing, 65);
  }
}
