/** LVM logical volumes and their snapshots: device paths, the snapshot
    name taken from the creation time, and the commands that create, mount,
    unmount and remove a snapshot. */
module LogicalVolumes {
  import opened Results
  import opened PyValues
  import opened Shell
  import opened Sudo
  import Mounts

  datatype LogicalVolume = LogicalVolume(vgName: string, lvName: string)

  /** `LogicalVolume.device_path`. */
  function DevicePath(lv: LogicalVolume): string
  {
    "/dev/" + lv.vgName + "/" + lv.lvName
  }

  /** The position of the first slash in `s`, if any. */
  function FirstSlash(s: string): (r: Option<nat>)
    ensures r.Some? ==> r.value < |s| && s[r.value] == '/' && forall i :: 0 <= i < r.value ==> s[i] != '/'
    ensures r.None? ==> forall i :: 0 <= i < |s| ==> s[i] != '/'
  {
    if s == [] then None
    else if s[0] == '/' then Some(0)
    else match FirstSlash(s[1..])
      case None => None
      case Some(k) => Some(k + 1)
  }

  /** The volume group and volume named by a device path. */
  function ParseDevicePath(p: string): Option<LogicalVolume>
  {
    if |p| >= 5 && p[..5] == "/dev/" then
      var rest := p[5..];
      match FirstSlash(rest)
      case None => None
      case Some(k) => Some(LogicalVolume(rest[..k], rest[k + 1..]))
    else None
  }

  /** A device path names its volume group and volume unambiguously when
      the group name has no slash. */
  lemma DevicePathRoundTrip(lv: LogicalVolume)
    requires forall i :: 0 <= i < |lv.vgName| ==> lv.vgName[i] != '/'
    ensures ParseDevicePath(DevicePath(lv)) == Some(lv)
  {
    var p := DevicePath(lv);
    var rest := lv.vgName + "/" + lv.lvName;
    assert p[..5] == "/dev/" && p[5..] == rest;
    var k := |lv.vgName|;
    assert rest[k] == '/' && forall i :: 0 <= i < k ==> rest[i] == lv.vgName[i];
    assert FirstSlash(rest) == Some(k);
    assert rest[..k] == lv.vgName && rest[k + 1..] == lv.lvName;
  }

  // ---------------------------------------------------------------------
  // The snapshot name.

  /** The reading of `datetime.now()` a snapshot is created at. */
  datatype DateTime = DateTime(year: nat, month: nat, day: nat, hour: nat, minute: nat, second: nat)

  /** A calendar reading whose year has four digits. */
  predicate ValidDateTime(d: DateTime)
  {
    1000 <= d.year <= 9999 && 1 <= d.month <= 12 && 1 <= d.day <= 31 &&
    d.hour < 24 && d.minute < 60 && d.second < 60
  }

  function Pow10(w: nat): nat
  {
    if w == 0 then 1 else 10 * Pow10(w - 1)
  }

  /** The last `w` decimal digits of `n`, zero-padded on the left. */
  function Pad(n: nat, w: nat): (s: string)
    ensures |s| == w && AllDigits(s)
  {
    if w == 0 then [] else Pad(n / 10, w - 1) + [DigitChar(n % 10)]
  }

  lemma {:induction false} PadValue(n: nat, w: nat)
    requires n < Pow10(w)
    ensures DigitsValue(Pad(n, w)) == n
  {
    if w > 0 {
      var s := Pad(n, w);
      assert s[..|s| - 1] == Pad(n / 10, w - 1);
      assert n / 10 < Pow10(w - 1) by {
        assert (n / 10) * 10 <= n;
      }
      PadValue(n / 10, w - 1);
    }
  }

  /** `strftime("%Y%m%d%H%M%S")`. */
  function Timestamp(d: DateTime): (s: string)
    ensures |s| == 14 && AllDigits(s)
  {
    Pad(d.year, 4) + Pad(d.month, 2) + Pad(d.day, 2) + Pad(d.hour, 2) + Pad(d.minute, 2) + Pad(d.second, 2)
  }

  /** The reading a timestamp of fourteen digits stands for. */
  function ParseTimestamp(s: string): Option<DateTime>
  {
    if |s| == 14 && AllDigits(s) then
      Some(DateTime(DigitsValue(s[0..4]), DigitsValue(s[4..6]), DigitsValue(s[6..8]),
                    DigitsValue(s[8..10]), DigitsValue(s[10..12]), DigitsValue(s[12..14])))
    else None
  }

  /** The timestamp loses nothing: the reading can be read back from it. */
  lemma TimestampRoundTrip(d: DateTime)
    requires ValidDateTime(d)
    ensures ParseTimestamp(Timestamp(d)) == Some(d)
  {
    var s := Timestamp(d);
    assert s[0..4] == Pad(d.year, 4);
    assert s[4..6] == Pad(d.month, 2);
    assert s[6..8] == Pad(d.day, 2);
    assert s[8..10] == Pad(d.hour, 2);
    assert s[10..12] == Pad(d.minute, 2);
    assert s[12..14] == Pad(d.second, 2);
    assert Pow10(2) == 100 && Pow10(4) == 10000;
    PadValue(d.year, 4);
    PadValue(d.month, 2);
    PadValue(d.day, 2);
    PadValue(d.hour, 2);
    PadValue(d.minute, 2);
    PadValue(d.second, 2);
  }

  /** `f"{origin.lv_name}_snap_{timestamp}"`. */
  function SnapshotName(lvName: string, now: DateTime): string
  {
    lvName + "_snap_" + Timestamp(now)
  }

  /** Snapshots of one volume taken at different readings get different
      names, and a snapshot's name is never its origin's. */
  lemma SnapshotNamesDistinct(lvName: string, d1: DateTime, d2: DateTime)
    requires ValidDateTime(d1) && ValidDateTime(d2) && d1 != d2
    ensures SnapshotName(lvName, d1) != SnapshotName(lvName, d2)
    ensures SnapshotName(lvName, d1) != lvName
  {
    var p := lvName + "_snap_";
    assert SnapshotName(lvName, d1)[|p|..] == Timestamp(d1);
    assert SnapshotName(lvName, d2)[|p|..] == Timestamp(d2);
    TimestampRoundTrip(d1);
    TimestampRoundTrip(d2);
  }

  /** The snapshot's device is never the origin's: `destroy` cannot remove
      the origin volume. */
  lemma SnapshotDeviceNotOrigin(origin: LogicalVolume, now: DateTime)
    ensures DevicePath(LogicalVolume(origin.vgName, SnapshotName(origin.lvName, now))) != DevicePath(origin)
  {
    assert |SnapshotName(origin.lvName, now)| > |origin.lvName|;
  }

  // ---------------------------------------------------------------------
  // The commands.

  function LvCreateArgv(size: int, sizeUnit: string, name: string, originDevice: string): Argv
  {
    ["lvcreate", "--size", IntToString(size) + sizeUnit, "--snapshot", "--name", name, originDevice]
  }

  /** The lvcreate command asks for a snapshot of the origin device under
      the given name, and its size word reads back as the size followed by
      the unit. */
  lemma LvCreateArgvRoundTrip(size: int, sizeUnit: string, origin: LogicalVolume, now: DateTime)
    ensures var c := LvCreateArgv(size, sizeUnit, SnapshotName(origin.lvName, now), DevicePath(origin));
      && |c| == 7 && c[0] == "lvcreate" && c[3] == "--snapshot"
      && c[5] == SnapshotName(origin.lvName, now) && c[6] == DevicePath(origin)
      && |sizeUnit| <= |c[2]| && c[2][|c[2]| - |sizeUnit|..] == sizeUnit
      && ParseInt(c[2][..|c[2]| - |sizeUnit|]) == Some(size)
      && c[6] != DevicePath(LogicalVolume(origin.vgName, c[5]))
  {
    var w := IntToString(size) + sizeUnit;
    assert w[..|w| - |sizeUnit|] == IntToString(size);
    assert w[|w| - |sizeUnit|..] == sizeUnit;
    ParseIntRoundTrip(size);
    SnapshotDeviceNotOrigin(origin, now);
  }

  function MkdirArgv(mountPoint: string): Argv { ["mkdir", "-p", mountPoint] }

  function RmdirArgv(mountPoint: string): Argv { ["rmdir", mountPoint] }

  function SnapshotMountArgv(device: string, mountPoint: string): Argv { ["mount", device, mountPoint] }

  function UmountArgv(mountPoint: string): Argv { ["umount", mountPoint] }

  function LvRemoveArgv(device: string): Argv { ["lvremove", "-y", device] }

  /** `prepare_for_backup`: create the mount point, then mount. */
  function PrepareCmds(device: string, mountPoint: string): seq<Argv>
  {
    [MkdirArgv(mountPoint), SnapshotMountArgv(device, mountPoint)]
  }

  /** `post_backup_cleanup`: unmount, remove the mount point, then remove
      the snapshot volume. */
  function CleanupCmds(device: string, mountPoint: string): seq<Argv>
  {
    [UmountArgv(mountPoint), RmdirArgv(mountPoint), LvRemoveArgv(device)]
  }

  /** The mount point is created before anything is mounted on it, and the
      mount is issued only when creating it succeeded. */
  lemma PrepareOrder(device: string, mountPoint: string, succeeds: (nat, Argv) -> bool, start: nat)
    ensures var r := CheckedRun(PrepareCmds(device, mountPoint), succeeds, start);
      && (!succeeds(start, MkdirArgv(mountPoint)) ==>
            r == Run([["mkdir", "-p", mountPoint]], Fail(CommandFailed(MkdirArgv(mountPoint)))))
      && (succeeds(start, MkdirArgv(mountPoint)) ==>
            r.trace == [["mkdir", "-p", mountPoint], ["mount", device, mountPoint]] &&
            r.outcome == Checked(SnapshotMountArgv(device, mountPoint), succeeds(start + 1, SnapshotMountArgv(device, mountPoint))))
  {
    CheckedPair(MkdirArgv(mountPoint), SnapshotMountArgv(device, mountPoint), succeeds, start);
  }

  /** Teardown runs in order and stops at the first failure: the snapshot
      volume is removed only after it was unmounted and its mount point
      removed. */
  lemma CleanupOrder(device: string, mountPoint: string, succeeds: (nat, Argv) -> bool, start: nat)
    ensures var r := CheckedRun(CleanupCmds(device, mountPoint), succeeds, start);
      && (LvRemoveArgv(device) in r.trace <==>
            succeeds(start, UmountArgv(mountPoint)) && succeeds(start + 1, RmdirArgv(mountPoint)))
      && |r.trace| > 0 && r.trace[0] == ["umount", mountPoint]
      && (r.outcome.Pass? <==>
            succeeds(start, UmountArgv(mountPoint)) && succeeds(start + 1, RmdirArgv(mountPoint)) &&
            succeeds(start + 2, LvRemoveArgv(device)))
  {
    CheckedTriple(UmountArgv(mountPoint), RmdirArgv(mountPoint), LvRemoveArgv(device), succeeds, start);
  }

  /** `post_backup_cleanup` as written: the unmount and the volume removal
      carry the password, so `run_with_sudo` as written turns them into
      `echo` commands, and only the password-less rmdir is issued as meant. */
  function CleanupAsWrittenCmds(device: string, mountPoint: string): seq<Argv>
  {
    [SudoArgv(UmountArgv(mountPoint), Some("test123")), RmdirArgv(mountPoint),
     SudoArgv(LvRemoveArgv(device), Some("test123"))]
  }

  /** On a mounted snapshot, the cleanup as written unmounts nothing and
      removes nothing: neither the umount nor the lvremove is ever issued,
      the rmdir finds the mount point still in use, and whatever the
      commands report the mount table is left as it was. When that rmdir
      fails, as it does on a mount point in use, the cleanup raises there
      and never reaches `destroy`. */
  lemma CleanupAsWrittenLeavesMounted(fs: MountTable, device: string, mountPoint: string,
                                      succeeds: (nat, Argv) -> bool, start: nat)
    requires IsMountPoint(fs, mountPoint)
    ensures var cmds := CleanupAsWrittenCmds(device, mountPoint);
      && UmountArgv(mountPoint) !in cmds && LvRemoveArgv(device) !in cmds
      && Mounts.RunFrom(fs, cmds, succeeds, start) == fs
      && (succeeds(start, cmds[0]) && !succeeds(start + 1, RmdirArgv(mountPoint)) ==>
            CheckedRun(cmds, succeeds, start) == Run(cmds[..2], Fail(CommandFailed(RmdirArgv(mountPoint)))))
  {
    var cmds := CleanupAsWrittenCmds(device, mountPoint);
    EchoChangesNothing(fs, UmountArgv(mountPoint), "test123");
    EchoChangesNothing(fs, LvRemoveArgv(device), "test123");
    assert Effect(fs, RmdirArgv(mountPoint)) == fs;
    assert cmds[..2][..1] == cmds[..1] && cmds[..1][..0] == [];
    assert Mounts.RunFrom(fs, cmds[..1], succeeds, start) == fs;
    assert Mounts.RunFrom(fs, cmds[..2], succeeds, start) == fs;
    CheckedTriple(cmds[0], cmds[1], cmds[2], succeeds, start);
    assert [cmds[0], cmds[1], cmds[2]] == cmds;
  }

  /** On a mount point that did not exist, preparing and cleaning up with
      every command succeeding mounts the snapshot read-write in between and
      leaves the mount table exactly as it was. */
  lemma LifecycleRestoresTable(fs: MountTable, vgName: string, name: string, mountPoint: string)
    requires mountPoint !in fs
    ensures var device := DevicePath(LogicalVolume(vgName, name));
      var prepared := Effect(Effect(fs, MkdirArgv(mountPoint)), SnapshotMountArgv(device, mountPoint));
      && MountedAs(prepared, mountPoint, MountedRw)
      && Effect(Effect(Effect(prepared, UmountArgv(mountPoint)), RmdirArgv(mountPoint)), LvRemoveArgv(device)) == fs
  {
    var device := DevicePath(LogicalVolume(vgName, name));
    assert device[0] == '/';
    var made := Effect(fs, MkdirArgv(mountPoint));
    assert made == fs[mountPoint := NotMounted];
    var prepared := Effect(made, SnapshotMountArgv(device, mountPoint));
    assert prepared == fs[mountPoint := MountedRw];
    var unmounted := Effect(prepared, UmountArgv(mountPoint));
    assert unmounted == fs[mountPoint := NotMounted];
    var removed := Effect(unmounted, RmdirArgv(mountPoint));
    assert removed == fs;
  }

  // ---------------------------------------------------------------------
  // The with-statement.

  /** A with-block over a snapshot whose `__exit__` runs the cleanup: the
      body runs only when `__enter__` (prepare) returned; the cleanup then
      always runs, and an exception it raises replaces the body's. */
  function WithSpec(prepare: seq<Argv>, cleanup: seq<Argv>, body: seq<Argv>, bodyRaises: bool,
                    succeeds: (nat, Argv) -> bool, start: nat): Run
  {
    var enter := CheckedRun(prepare, succeeds, start);
    if enter.outcome.Fail? then enter
    else
      var exit := CheckedRun(cleanup, succeeds, start + |enter.trace| + |body|);
      Run(enter.trace + body + exit.trace,
          if exit.outcome.Fail? then exit.outcome else if bodyRaises then Fail(BodyRaised) else Pass)
  }

  /** The with-block as written: `__exit__` takes no argument besides the
      instance, so the three the with-statement passes raise a TypeError
      before any cleanup command is issued. */
  function WithAsWrittenSpec(prepare: seq<Argv>, body: seq<Argv>, succeeds: (nat, Argv) -> bool, start: nat): Run
  {
    var enter := CheckedRun(prepare, succeeds, start);
    if enter.outcome.Fail? then enter
    else Run(enter.trace + body, Fail(BadCall("__exit__")))
  }

  /** Once prepared, the snapshot is cleaned up whether or not the body
      raises: the cleanup commands follow the body's, starting with the
      unmount. */
  lemma WithCleansUp(device: string, mountPoint: string, body: seq<Argv>, bodyRaises: bool,
                     succeeds: (nat, Argv) -> bool, start: nat)
    requires succeeds(start, MkdirArgv(mountPoint)) && succeeds(start + 1, SnapshotMountArgv(device, mountPoint))
    ensures var r := WithSpec(PrepareCmds(device, mountPoint), CleanupCmds(device, mountPoint), body, bodyRaises,
                              succeeds, start);
      var exit := CheckedRun(CleanupCmds(device, mountPoint), succeeds, start + 2 + |body|);
      && r.trace == PrepareCmds(device, mountPoint) + body + exit.trace
      && |exit.trace| > 0 && exit.trace[0] == UmountArgv(mountPoint)
      && (exit.outcome.Pass? ==> r.outcome == if bodyRaises then Fail(BodyRaised) else Pass)
  {
    PrepareOrder(device, mountPoint, succeeds, start);
    CleanupOrder(device, mountPoint, succeeds, start + 2 + |body|);
  }

  /** As written, a with-block over a prepared snapshot never issues any
      cleanup command and always raises the TypeError of `__exit__`: the
      snapshot stays mounted and the volume is not removed. */
  lemma WithAsWrittenLeaksSnapshot(device: string, mountPoint: string, body: seq<Argv>,
                                   succeeds: (nat, Argv) -> bool, start: nat)
    requires succeeds(start, MkdirArgv(mountPoint)) && succeeds(start + 1, SnapshotMountArgv(device, mountPoint))
    ensures var r := WithAsWrittenSpec(PrepareCmds(device, mountPoint), body, succeeds, start);
      && r.trace == PrepareCmds(device, mountPoint) + body
      && r.outcome == Fail(BadCall("__exit__"))
  {
    PrepareOrder(device, mountPoint, succeeds, start);
  }

  // ---------------------------------------------------------------------
  // The class.

  class LVMSnapshot {
    const origin: LogicalVolume
    const name: string
    const size: int
    const sizeUnit: string
    const mountPoint: string

    /** The fields `__init__` sets, the name taken from the reading `now`. */
    constructor(origin: LogicalVolume, size: int, sizeUnit: string, mountPoint: string, now: DateTime)
      ensures this.origin == origin && this.size == size && this.sizeUnit == sizeUnit
      ensures this.mountPoint == mountPoint && name == SnapshotName(origin.lvName, now)
    {
      this.origin := origin;
      this.name := SnapshotName(origin.lvName, now);
      this.size := size;
      this.sizeUnit := sizeUnit;
      this.mountPoint := mountPoint;
    }

    /** `LVMSnapshot.device_path`: the snapshot volume in the origin's group. */
    function Device(): string
    {
      DevicePath(LogicalVolume(origin.vgName, name))
    }

    function CreateArgv(): Argv
    {
      LvCreateArgv(size, sizeUnit, name, DevicePath(origin))
    }

    /** `_create`. */
    method Create(host: Host) returns (r: Outcome)
      modifies host
      ensures host.log == old(host.log) + [CreateArgv()]
      ensures r == Checked(CreateArgv(), host.succeeds(|old(host.log)|, CreateArgv()))
    {
      r := RunWithSudo(CreateArgv(), host);
    }

    method CreateMountPoint(host: Host) returns (r: Outcome)
      modifies host
      ensures host.log == old(host.log) + [MkdirArgv(mountPoint)]
      ensures r == Checked(MkdirArgv(mountPoint), host.succeeds(|old(host.log)|, MkdirArgv(mountPoint)))
    {
      r := RunWithSudo(MkdirArgv(mountPoint), host);
    }

    method DeleteMountPoint(host: Host) returns (r: Outcome)
      modifies host
      ensures host.log == old(host.log) + [RmdirArgv(mountPoint)]
      ensures r == Checked(RmdirArgv(mountPoint), host.succeeds(|old(host.log)|, RmdirArgv(mountPoint)))
    {
      r := RunWithSudo(RmdirArgv(mountPoint), host);
    }

    method Mount(host: Host) returns (r: Outcome)
      modifies host
      ensures host.log == old(host.log) + [SnapshotMountArgv(Device(), mountPoint)]
      ensures r == Checked(SnapshotMountArgv(Device(), mountPoint),
                           host.succeeds(|old(host.log)|, SnapshotMountArgv(Device(), mountPoint)))
    {
      r := RunWithSudo(SnapshotMountArgv(Device(), mountPoint), host);
    }

    method Unmount(host: Host) returns (r: Outcome)
      modifies host
      ensures host.log == old(host.log) + [UmountArgv(mountPoint)]
      ensures r == Checked(UmountArgv(mountPoint), host.succeeds(|old(host.log)|, UmountArgv(mountPoint)))
    {
      r := RunWithSudo(UmountArgv(mountPoint), host);
    }

    /** `destroy`: remove the snapshot volume. */
    method Destroy(host: Host) returns (r: Outcome)
      modifies host
      ensures host.log == old(host.log) + [LvRemoveArgv(Device())]
      ensures r == Checked(LvRemoveArgv(Device()), host.succeeds(|old(host.log)|, LvRemoveArgv(Device())))
    {
      r := RunWithSudo(LvRemoveArgv(Device()), host);
    }

    method PrepareForBackup(host: Host) returns (r: Outcome)
      modifies host
      ensures var s := CheckedRun(PrepareCmds(Device(), mountPoint), host.succeeds, |old(host.log)|);
        host.log == old(host.log) + s.trace && r == s.outcome
    {
      ghost var log0 := host.log;
      ghost var mk, mt := MkdirArgv(mountPoint), SnapshotMountArgv(Device(), mountPoint);
      assert PrepareCmds(Device(), mountPoint) == [mk, mt];
      CheckedPair(mk, mt, host.succeeds, |log0|);
      r := CreateMountPoint(host);
      if r.Fail? {
        assert host.log == log0 + [mk];
        return;
      }
      r := Mount(host);
      assert host.log == log0 + [mk, mt];
    }

    method PostBackupCleanup(host: Host) returns (r: Outcome)
      modifies host
      ensures var s := CheckedRun(CleanupCmds(Device(), mountPoint), host.succeeds, |old(host.log)|);
        host.log == old(host.log) + s.trace && r == s.outcome
    {
      ghost var log0 := host.log;
      ghost var um, rd, lr := UmountArgv(mountPoint), RmdirArgv(mountPoint), LvRemoveArgv(Device());
      assert CleanupCmds(Device(), mountPoint) == [um, rd, lr];
      CheckedTriple(um, rd, lr, host.succeeds, |log0|);
      r := Unmount(host);
      if r.Fail? {
        assert host.log == log0 + [um];
        return;
      }
      r := RunWithSudo(RmdirArgv(mountPoint), host);
      if r.Fail? {
        assert host.log == log0 + [um, rd];
        return;
      }
      r := Destroy(host);
      assert host.log == log0 + [um, rd, lr];
    }

    /** `__exit__` as written: called with `argCount` arguments besides the
        instance, of which it accepts none. */
    method ExitAsWritten(argCount: nat, host: Host) returns (r: Outcome)
      modifies host
      ensures argCount != 0 ==> r == Fail(BadCall("__exit__")) && host.log == old(host.log)
      ensures argCount == 0 ==>
        var s := CheckedRun(CleanupCmds(Device(), mountPoint), host.succeeds, |old(host.log)|);
        host.log == old(host.log) + s.trace && r == s.outcome
    {
      if argCount != 0 {
        return Fail(BadCall("__exit__"));
      }
      r := PostBackupCleanup(host);
    }

    /** `with snapshot: <body>` as written: the with-statement hands
        `__exit__` the exception type, value and traceback. */
    method WithAsWritten(body: seq<Argv>, host: Host) returns (r: Outcome)
      modifies host
      ensures var s := WithAsWrittenSpec(PrepareCmds(Device(), mountPoint), body, host.succeeds, |old(host.log)|);
        host.log == old(host.log) + s.trace && r == s.outcome
    {
      ghost var log0 := host.log;
      r := PrepareForBackup(host);
      if r.Fail? {
        return;
      }
      ghost var log1 := host.log;
      Mounts.RunBody(body, host);
      r := ExitAsWritten(3, host);
      AppendAssoc(log0, log1[|log0|..], body);
    }

    /** The with-statement with `__exit__` running the cleanup. */
    method With(body: seq<Argv>, bodyRaises: bool, host: Host) returns (r: Outcome)
      modifies host
      ensures var s := WithSpec(PrepareCmds(Device(), mountPoint), CleanupCmds(Device(), mountPoint), body, bodyRaises,
                                host.succeeds, |old(host.log)|);
        host.log == old(host.log) + s.trace && r == s.outcome
    {
      ghost var log0 := host.log;
      ghost var enter := CheckedRun(PrepareCmds(Device(), mountPoint), host.succeeds, |log0|);
      r := PrepareForBackup(host);
      if r.Fail? {
        return;
      }
      assert host.log == log0 + enter.trace && r == enter.outcome;
      Mounts.RunBody(body, host);
      AppendAssoc(log0, enter.trace, body);
      ghost var log2 := host.log;
      assert log2 == log0 + (enter.trace + body);
      ghost var exitRun := CheckedRun(CleanupCmds(Device(), mountPoint), host.succeeds, |log2|);
      assert |log2| == |log0| + |enter.trace| + |body|;
      var exit := PostBackupCleanup(host);
      assert host.log == log2 + exitRun.trace && exit == exitRun.outcome;
      AppendAssoc(log0, enter.trace + body, exitRun.trace);
      r := if exit.Fail? then exit else if bodyRaises then Fail(BodyRaised) else Pass;
    }
  }

  /** `LVMSnapshot(...)`: set the fields, then create the snapshot volume
      (check=True, so a failed lvcreate raises). */
  method NewSnapshot(origin: LogicalVolume, size: int, sizeUnit: string, mountPoint: string, now: DateTime,
                     host: Host) returns (s: LVMSnapshot, r: Outcome)
    modifies host
    ensures fresh(s) && s.origin == origin && s.size == size && s.sizeUnit == sizeUnit
    ensures s.mountPoint == mountPoint && s.name == SnapshotName(origin.lvName, now)
    ensures host.log == old(host.log) + [s.CreateArgv()]
    ensures r == Checked(s.CreateArgv(), host.succeeds(|old(host.log)|, s.CreateArgv()))
  {
    s := new LVMSnapshot(origin, size, sizeUnit, mountPoint, now);
    r := s.Create(host);
  }
}
