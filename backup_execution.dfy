/** Running one backup job: the standard-path backup (optionally with its
    source remounted read-only around the backups) and the logical-volume
    backup (a snapshot created, mounted, backed up and torn down once), each
    backing up to every repository of the job and collecting which
    repositories succeeded. The commands issued are the model's observable
    behaviour; the host decides which of them succeed. */
module BackupExecution {
  import opened Results
  import opened PyValues
  import opened Shell
  import Repos
  import BackupJobs

  /** What a repository backup reads from: the configured source path, or
      the mount point of a snapshot (whose exclude paths are re-rooted under
      it). `excludes` is the raw `exclude_paths` value. */
  datatype Source =
    | Standard(src: Value, excludes: Value)
    | Snapshot(mountPoint: string, excludes: Value)

  datatype JobOutcome =
    | NoRepositories
    | Completed(successful: seq<string>, failed: seq<string>)
    | Raised(error: Error)

  /** The commands a job issued, in order, and how it ended. */
  datatype JobRun = JobRun(trace: seq<Argv>, outcome: JobOutcome)

  /** One backup to the repositories so far: commands issued, repositories
      that succeeded and repositories that failed, each in order. */
  datatype FanResult = FanResult(trace: seq<Argv>, successful: seq<string>, failed: seq<string>)

  /** The `--exclude` argument for one exclude entry; None where the entry
      is not a string (subprocess or `str.lstrip` raises). */
  function ExcludeArg(e: Value, mountPoint: Option<string>): (r: Option<string>)
    ensures r.Some? <==> e.Str?
    ensures e.Str? && mountPoint.None? ==> r == Some(e.s)
    ensures e.Str? && mountPoint.Some? ==> r == Some(PosixJoin(mountPoint.value, LStripSlash(e.s)))
  {
    if !e.Str? then None
    else if mountPoint.None? then Some(e.s)
    else Some(PosixJoin(mountPoint.value, LStripSlash(e.s)))
  }

  /** `--exclude <arg>` for each exclude entry, in order. */
  function ExcludeArgs(es: seq<Value>, mountPoint: Option<string>): (r: Option<seq<string>>)
    ensures r.Some? <==> forall k :: 0 <= k < |es| ==> es[k].Str?
    ensures r.Some? ==>
      && |r.value| == 2 * |es|
      && forall k :: 0 <= k < |es| ==>
           r.value[2 * k] == "--exclude" && Some(r.value[2 * k + 1]) == ExcludeArg(es[k], mountPoint)
  {
    if es == [] then Some([])
    else
      var n := |es| - 1;
      match ExcludeArgs(es[..n], mountPoint)
      case None => None
      case Some(done) =>
        match ExcludeArg(es[n], mountPoint)
        case None => None
        case Some(a) =>
          PairsSnoc(done, a, n);
          Some(done + ["--exclude", a])
  }

  /** Appending one `--exclude` pair keeps the pairs before it. */
  lemma PairsSnoc(done: seq<string>, a: string, n: nat)
    requires |done| == 2 * n
    ensures var r := done + ["--exclude", a];
      && |r| == 2 * n + 2 && r[2 * n] == "--exclude" && r[2 * n + 1] == a
      && forall k :: 0 <= k < n ==> r[2 * k] == done[2 * k] && r[2 * k + 1] == done[2 * k + 1]
  {
  }

  /** The restic command that backs one repository up, as the repository
      loop builds it; None where building or issuing it raises inside the
      loop's try block (a non-string source, an exclude value that cannot be
      iterated, an exclude entry that is not a string). */
  function BackupArgv(repo: Repos.ResticRepo, source: Source): Option<Argv>
  {
    var target := if source.Standard? then AsArg(source.src) else Some(source.mountPoint);
    var mountPoint := if source.Snapshot? then Some(source.mountPoint) else None;
    match target
    case None => None
    case Some(t) =>
      match Iter(source.excludes)
      case None => None
      case Some(es) =>
        match ExcludeArgs(es, mountPoint)
        case None => None
        case Some(xs) =>
          Some(["restic", "-r", repo.repoPath, "--password-file", repo.passwordFile, "backup", t] + xs)
  }

  predicate IsResticBackup(c: Argv)
  {
    |c| >= 7 && c[0] == "restic" && c[5] == "backup"
  }

  /** Shape of a backup command: repository, password file, what is backed
      up, then one `--exclude` pair per exclude entry. */
  lemma BackupArgvShape(repo: Repos.ResticRepo, source: Source)
    ensures BackupArgv(repo, source).Some? <==>
      (source.Snapshot? || source.src.Str?) && Iter(source.excludes).Some? &&
      forall k :: 0 <= k < |Iter(source.excludes).value| ==> Iter(source.excludes).value[k].Str?
    ensures BackupArgv(repo, source).Some? ==>
      var c := BackupArgv(repo, source).value;
      var es := Iter(source.excludes).value;
      IsResticBackup(c) &&
      c[..7] == ["restic", "-r", repo.repoPath, "--password-file", repo.passwordFile, "backup",
                 if source.Standard? then source.src.s else source.mountPoint] &&
      |c| == 7 + 2 * |es| &&
      forall k :: 0 <= k < |es| ==>
        (c[7 + 2 * k] == "--exclude" &&
         Some(c[8 + 2 * k]) == ExcludeArg(es[k], if source.Snapshot? then Some(source.mountPoint) else None))
  {
    var target := if source.Standard? then AsArg(source.src) else Some(source.mountPoint);
    var mountPoint := if source.Snapshot? then Some(source.mountPoint) else None;
    if target.Some? && Iter(source.excludes).Some? {
      var es := Iter(source.excludes).value;
      var xs := ExcludeArgs(es, mountPoint);
      if xs.Some? {
        var head := ["restic", "-r", repo.repoPath, "--password-file", repo.passwordFile, "backup", target.value];
        var c := head + xs.value;
        assert BackupArgv(repo, source) == Some(c);
        assert c[..7] == head;
        forall k | 0 <= k < |es|
          ensures c[7 + 2 * k] == "--exclude" && Some(c[8 + 2 * k]) == ExcludeArg(es[k], mountPoint)
        {
          assert c[7 + 2 * k] == xs.value[2 * k] && c[8 + 2 * k] == xs.value[2 * k + 1];
        }
      }
    }
  }

  /** A snapshot backup excludes each configured path re-rooted at the mount
      point: leading slashes dropped, the mount point and a slash put in
      front. */
  lemma SnapshotExcludeRerooted(mountPoint: string, e: string)
    requires mountPoint != [] && mountPoint[|mountPoint| - 1] != '/'
    ensures ExcludeArg(Str(e), Some(mountPoint)) == Some(mountPoint + "/" + LStripSlash(e))
  {
  }

  /** The repository loop: every repository is tried in turn, whatever
      happened to the ones before it. */
  function FanOut(repos: seq<Repos.ResticRepo>, source: Source, succeeds: (nat, Argv) -> bool, start: nat): FanResult
  {
    if repos == [] then FanResult([], [], [])
    else
      var f := FanOut(repos[..|repos| - 1], source, succeeds, start);
      var repo := repos[|repos| - 1];
      match BackupArgv(repo, source)
      case None => FanResult(f.trace, f.successful, f.failed + [repo.repoPath])
      case Some(c) =>
        if succeeds(start + |f.trace|, c) then FanResult(f.trace + [c], f.successful + [repo.repoPath], f.failed)
        else FanResult(f.trace + [c], f.successful, f.failed + [repo.repoPath])
  }

  function RepoPaths(repos: seq<Repos.ResticRepo>): (r: seq<string>)
    ensures |r| == |repos| && forall i :: 0 <= i < |repos| ==> r[i] == repos[i].repoPath
  {
    seq(|repos|, i requires 0 <= i < |repos| => repos[i].repoPath)
  }

  /** The commands the repository loop issues: one per repository whose
      command could be built, in repository order. */
  function Issued(repos: seq<Repos.ResticRepo>, source: Source): seq<Argv>
  {
    if repos == [] then []
    else
      var rest := Issued(repos[..|repos| - 1], source);
      match BackupArgv(repos[|repos| - 1], source)
      case None => rest
      case Some(c) => rest + [c]
  }

  /** Each step of the loop puts its repository in exactly one list. */
  lemma FanOutStep(repos: seq<Repos.ResticRepo>, source: Source, succeeds: (nat, Argv) -> bool, start: nat)
    requires repos != []
    ensures var f := FanOut(repos, source, succeeds, start);
      var g := FanOut(repos[..|repos| - 1], source, succeeds, start);
      var p := repos[|repos| - 1].repoPath;
      (f.successful == g.successful + [p] && f.failed == g.failed) ||
      (f.successful == g.successful && f.failed == g.failed + [p])
  {
  }

  /** Every repository ends up in exactly one of the two lists. */
  lemma {:induction false} FanOutPartition(repos: seq<Repos.ResticRepo>, source: Source, succeeds: (nat, Argv) -> bool, start: nat)
    ensures var f := FanOut(repos, source, succeeds, start);
      multiset(f.successful) + multiset(f.failed) == multiset(RepoPaths(repos))
  {
    if repos != [] {
      var pre := repos[..|repos| - 1];
      FanOutPartition(pre, source, succeeds, start);
      FanOutStep(repos, source, succeeds, start);
      RepoPathsSnoc(repos);
      PartitionStep(FanOut(pre, source, succeeds, start), FanOut(repos, source, succeeds, start),
                    RepoPaths(pre), repos[|repos| - 1].repoPath);
    }
  }

  lemma RepoPathsSnoc(repos: seq<Repos.ResticRepo>)
    requires repos != []
    ensures RepoPaths(repos) == RepoPaths(repos[..|repos| - 1]) + [repos[|repos| - 1].repoPath]
  {
  }

  /** Adding one path to one of the two lists keeps them a partition. */
  lemma PartitionStep(g: FanResult, f: FanResult, paths: seq<string>, p: string)
    requires multiset(g.successful) + multiset(g.failed) == multiset(paths)
    requires (f.successful == g.successful + [p] && f.failed == g.failed) ||
             (f.successful == g.successful && f.failed == g.failed + [p])
    ensures multiset(f.successful) + multiset(f.failed) == multiset(paths + [p])
  {
    assert multiset(paths + [p]) == multiset(paths) + multiset{p};
    if f.successful == g.successful + [p] && f.failed == g.failed {
      assert multiset(f.successful) == multiset(g.successful) + multiset{p};
    } else {
      assert multiset(f.failed) == multiset(g.failed) + multiset{p};
    }
  }

  /** The commands issued do not depend on which earlier backups succeeded:
      they are the buildable repositories' commands, in order. */
  lemma {:induction false} FanOutIssues(repos: seq<Repos.ResticRepo>, source: Source, succeeds: (nat, Argv) -> bool, start: nat)
    ensures FanOut(repos, source, succeeds, start).trace == Issued(repos, source)
    ensures |Issued(repos, source)| <= |repos|
  {
    if repos != [] {
      FanOutIssues(repos[..|repos| - 1], source, succeeds, start);
    }
  }

  /** Where every command can be built, one command per repository is
      issued, the i-th backing up the i-th repository. */
  lemma {:induction false} IssuedAll(repos: seq<Repos.ResticRepo>, source: Source)
    requires forall i :: 0 <= i < |repos| ==> BackupArgv(repos[i], source).Some?
    ensures |Issued(repos, source)| == |repos|
    ensures forall i :: 0 <= i < |repos| ==> Issued(repos, source)[i] == BackupArgv(repos[i], source).value
  {
    if repos != [] {
      var pre := repos[..|repos| - 1];
      assert forall i :: 0 <= i < |pre| ==> pre[i] == repos[i];
      IssuedAll(pre, source);
    }
  }

  /** Every issued command is a restic backup. */
  lemma {:induction false} IssuedAreBackups(repos: seq<Repos.ResticRepo>, source: Source)
    ensures forall i :: 0 <= i < |Issued(repos, source)| ==> IsResticBackup(Issued(repos, source)[i])
  {
    if repos != [] {
      var pre := repos[..|repos| - 1];
      IssuedAreBackups(pre, source);
      BackupArgvShape(repos[|repos| - 1], source);
    }
  }

  /** A repository whose backup command the host accepts lands in the
      successful list; when all commands can be built and all succeed, no
      repository fails. */
  lemma {:induction false} FanOutAllSucceed(repos: seq<Repos.ResticRepo>, source: Source, succeeds: (nat, Argv) -> bool, start: nat)
    requires forall i :: 0 <= i < |repos| ==> BackupArgv(repos[i], source).Some?
    requires forall n: nat, c :: succeeds(n, c)
    ensures FanOut(repos, source, succeeds, start).successful == RepoPaths(repos)
    ensures FanOut(repos, source, succeeds, start).failed == []
  {
    if repos != [] {
      var pre := repos[..|repos| - 1];
      assert forall i :: 0 <= i < |pre| ==> pre[i] == repos[i];
      FanOutAllSucceed(pre, source, succeeds, start);
      assert RepoPaths(repos) == RepoPaths(pre) + [repos[|repos| - 1].repoPath];
    }
  }

  /** A repository whose command cannot be built fails without a command. */
  lemma FanOutUnbuildable(repos: seq<Repos.ResticRepo>, source: Source, succeeds: (nat, Argv) -> bool, start: nat)
    requires forall i :: 0 <= i < |repos| ==> BackupArgv(repos[i], source).None?
    ensures FanOut(repos, source, succeeds, start) == FanResult([], [], RepoPaths(repos))
  {
    if repos != [] {
      var pre := repos[..|repos| - 1];
      assert forall i :: 0 <= i < |pre| ==> pre[i] == repos[i];
      FanOutUnbuildable(pre, source, succeeds, start);
      assert RepoPaths(repos) == RepoPaths(pre) + [repos[|repos| - 1].repoPath];
    }
  }

  // ---------------------------------------------------------------------
  // _run_standard_backup and _run_lvm_backup as functions of the host's answers.

  /** The try/finally block of `_run_standard_backup` with the source
      remounted: read-only remount (with check=True), the repository loop,
      then the read-write remount, which the finally block always issues. */
  function ReadOnlyPhase(p: string, source: Source, repos: seq<Repos.ResticRepo>, succeeds: (nat, Argv) -> bool, start: nat): JobRun
  {
    if !succeeds(start, RemountArgv("ro", p)) then
      JobRun([RemountArgv("ro", p), RemountArgv("rw", p)], Raised(CommandFailed(RemountArgv("ro", p))))
    else
      var f := FanOut(repos, source, succeeds, start + 1);
      JobRun([RemountArgv("ro", p)] + f.trace + [RemountArgv("rw", p)], Completed(f.successful, f.failed))
  }

  /** `_run_standard_backup`, started when `start` commands had been issued. */
  function StandardRun(config: Mapping, repos: seq<Repos.ResticRepo>, succeeds: (nat, Argv) -> bool, start: nat): JobRun
  {
    match Get(config, "backup_source_path")
    case None => JobRun([], Raised(MissingKey("backup_source_path")))
    case Some(src) =>
      var source := Standard(src, GetOr(config, "exclude_paths", List([])));
      if !Truthy(GetOr(config, "remount_readonly", Bool(false))) then
        var f := FanOut(repos, source, succeeds, start);
        JobRun(f.trace, Completed(f.successful, f.failed))
      else
        match AsArg(src)
        case None => JobRun([], Raised(WrongType("backup_source_path")))
        case Some(p) => ReadOnlyPhase(p, source, repos, succeeds, start)
  }

  /** The snapshot name for a logical volume at a time reading. */
  function SnapshotName(lv: string, time: int): string
  {
    lv + "_snapshot_" + IntToString(time)
  }

  function SnapshotMountPoint(snapshot: string): string
  {
    "/mnt/resticlvm_" + snapshot
  }

  /** Two readings of the clock that differ give two snapshot names that
      differ. */
  lemma SnapshotNamesDistinct(lv: string, t1: int, t2: int)
    requires t1 != t2
    ensures SnapshotName(lv, t1) != SnapshotName(lv, t2)
  {
    var p := lv + "_snapshot_";
    assert SnapshotName(lv, t1)[|p|..] == IntToString(t1);
    assert SnapshotName(lv, t2)[|p|..] == IntToString(t2);
    ParseIntRoundTrip(t1);
    ParseIntRoundTrip(t2);
  }

  /** Every snapshot mount point is a non-root absolute path ending in a
      digit. */
  lemma SnapshotMountPointShape(lv: string, time: int)
    ensures var mp := SnapshotMountPoint(SnapshotName(lv, time));
      |mp| > 1 && mp[0] == '/' && IsDigit(mp[|mp| - 1])
  {
    var mp := SnapshotMountPoint(SnapshotName(lv, time));
    var s := IntToString(time);
    assert mp == "/mnt/resticlvm_" + lv + "_snapshot_" + s;
    assert mp[|mp| - 1] == s[|s| - 1];
  }

  /** Every exclude of a snapshot backup lies under the snapshot's mount
      point: it is the mount point, a slash, and the configured path
      without its leading slashes. */
  lemma SnapshotExcludesUnderMount(lv: string, time: int, e: string)
    ensures var mp := SnapshotMountPoint(SnapshotName(lv, time));
      ExcludeArg(Str(e), Some(mp)) == Some(mp + "/" + LStripSlash(e))
  {
    SnapshotMountPointShape(lv, time);
    SnapshotExcludeRerooted(SnapshotMountPoint(SnapshotName(lv, time)), e);
  }

  function LvCreateArgv(vg: string, lv: string, size: string, snapshot: string): Argv
  {
    ["lvcreate", "--snapshot", "--size=" + size, "--name=" + snapshot, vg + "/" + lv]
  }

  function SnapshotMountArgv(vg: string, snapshot: string, mountPoint: string): Argv
  {
    ["mount", "/dev/" + vg + "/" + snapshot, mountPoint]
  }

  function LvRemoveArgv(vg: string, snapshot: string): Argv
  {
    ["lvremove", "-f", vg + "/" + snapshot]
  }

  /** The try/finally block of `_run_lvm_backup` once the snapshot exists:
      mount it (check=True), the repository loop; the finally block unmounts
      it if it was mounted and removes it in any case. */
  function MountedPhase(vg: string, snapshot: string, excludes: Value, repos: seq<Repos.ResticRepo>,
                        succeeds: (nat, Argv) -> bool, start: nat): JobRun
  {
    var mountPoint := SnapshotMountPoint(snapshot);
    var mount := SnapshotMountArgv(vg, snapshot, mountPoint);
    if !succeeds(start, mount) then
      JobRun([mount, LvRemoveArgv(vg, snapshot)], Raised(CommandFailed(mount)))
    else
      var f := FanOut(repos, Snapshot(mountPoint, excludes), succeeds, start + 1);
      JobRun([mount] + f.trace + [["umount", mountPoint], LvRemoveArgv(vg, snapshot)], Completed(f.successful, f.failed))
  }

  /** The try/finally block of `_run_lvm_backup`: create the snapshot
      (check=True); nothing is torn down if that fails. */
  function SnapshotPhase(vg: string, lv: string, size: string, snapshot: string, excludes: Value,
                         repos: seq<Repos.ResticRepo>, succeeds: (nat, Argv) -> bool, start: nat): JobRun
  {
    var create := LvCreateArgv(vg, lv, size, snapshot);
    if !succeeds(start, create) then
      JobRun([create], Raised(CommandFailed(create)))
    else
      var m := MountedPhase(vg, snapshot, excludes, repos, succeeds, start + 1);
      JobRun([create] + m.trace, m.outcome)
  }

  /** `_run_lvm_backup`, started when `start` commands had been issued;
      `clock(start)` is its `int(time.time())`. */
  function LvmRun(config: Mapping, repos: seq<Repos.ResticRepo>, succeeds: (nat, Argv) -> bool, clock: nat -> int, start: nat): JobRun
  {
    match (Get(config, "vg_name"), Get(config, "lv_name"), Get(config, "snapshot_size"), Get(config, "backup_source_path"))
    case (None, _, _, _) => JobRun([], Raised(MissingKey("vg_name")))
    case (_, None, _, _) => JobRun([], Raised(MissingKey("lv_name")))
    case (_, _, None, _) => JobRun([], Raised(MissingKey("snapshot_size")))
    case (_, _, _, None) => JobRun([], Raised(MissingKey("backup_source_path")))
    case (Some(vgV), Some(lvV), Some(sizeV), Some(_)) =>
      match (Format(lvV), Format(vgV), Format(sizeV))
      case (None, _, _) => JobRun([], Raised(Unformattable("lv_name")))
      case (_, None, _) => JobRun([], Raised(Unformattable("vg_name")))
      case (_, _, None) => JobRun([], Raised(Unformattable("snapshot_size")))
      case (Some(lv), Some(vg), Some(size)) =>
        SnapshotPhase(vg, lv, size, SnapshotName(lv, clock(start)), GetOr(config, "exclude_paths", List([])), repos, succeeds, start)
  }

  predicate IsLogicalVolumeCategory(category: string)
  {
    category == "logical_volume_root" || category == "logical_volume_nonroot"
  }

  /** `BackupJob.run`. */
  function JobRunSpec(job: BackupJobs.BackupJob, succeeds: (nat, Argv) -> bool, clock: nat -> int, start: nat): JobRun
  {
    if job.repositories == [] then JobRun([], NoRepositories)
    else if IsLogicalVolumeCategory(job.category) then LvmRun(job.config, job.repositories, succeeds, clock, start)
    else StandardRun(job.config, job.repositories, succeeds, start)
  }

  // ---------------------------------------------------------------------
  // Properties of a job run.

  /** A job without repositories issues nothing; a completed run accounts
      for every repository exactly once. */
  lemma JobRunAccounts(job: BackupJobs.BackupJob, succeeds: (nat, Argv) -> bool, clock: nat -> int, start: nat)
    ensures job.repositories == [] <==> JobRunSpec(job, succeeds, clock, start).outcome.NoRepositories?
    ensures JobRunSpec(job, succeeds, clock, start).outcome.NoRepositories? ==> JobRunSpec(job, succeeds, clock, start).trace == []
    ensures var o := JobRunSpec(job, succeeds, clock, start).outcome;
      o.Completed? ==> multiset(o.successful) + multiset(o.failed) == multiset(RepoPaths(job.repositories))
  {
    if job.repositories != [] {
      if IsLogicalVolumeCategory(job.category) {
        LvmRunAccounts(job.config, job.repositories, succeeds, clock, start);
      } else {
        StandardRunAccounts(job.config, job.repositories, succeeds, start);
      }
    }
  }

  lemma StandardRunAccounts(config: Mapping, repos: seq<Repos.ResticRepo>, succeeds: (nat, Argv) -> bool, start: nat)
    ensures var o := StandardRun(config, repos, succeeds, start).outcome;
      !o.NoRepositories? && (o.Completed? ==> multiset(o.successful) + multiset(o.failed) == multiset(RepoPaths(repos)))
  {
    var source := Standard(GetOr(config, "backup_source_path", Int(0)), GetOr(config, "exclude_paths", List([])));
    FanOutPartition(repos, source, succeeds, start);
    FanOutPartition(repos, source, succeeds, start + 1);
  }

  lemma LvmRunAccounts(config: Mapping, repos: seq<Repos.ResticRepo>, succeeds: (nat, Argv) -> bool, clock: nat -> int, start: nat)
    ensures var o := LvmRun(config, repos, succeeds, clock, start).outcome;
      !o.NoRepositories? && (o.Completed? ==> multiset(o.successful) + multiset(o.failed) == multiset(RepoPaths(repos)))
  {
    var o := LvmRun(config, repos, succeeds, clock, start).outcome;
    if o.Completed? {
      var lv := Format(Get(config, "lv_name").value).value;
      var mountPoint := SnapshotMountPoint(SnapshotName(lv, clock(start)));
      FanOutPartition(repos, Snapshot(mountPoint, GetOr(config, "exclude_paths", List([]))), succeeds, start + 2);
    }
  }

  /** The read-only remount is the first command and the read-write remount,
      issued whatever happened in between, the last; the run raises exactly
      when the read-only remount fails, and otherwise every repository's
      backup sits between the two. */
  lemma ReadOnlyBrackets(p: string, source: Source, repos: seq<Repos.ResticRepo>, succeeds: (nat, Argv) -> bool, start: nat)
    ensures var t := ReadOnlyPhase(p, source, repos, succeeds, start).trace;
      |t| >= 2 && t[0] == RemountArgv("ro", p) && t[|t| - 1] == RemountArgv("rw", p) &&
      forall i :: 1 <= i < |t| - 1 ==> IsResticBackup(t[i])
    ensures ReadOnlyPhase(p, source, repos, succeeds, start).outcome.Raised? <==> !succeeds(start, RemountArgv("ro", p))
    ensures succeeds(start, RemountArgv("ro", p)) ==>
      var t := ReadOnlyPhase(p, source, repos, succeeds, start).trace;
      t[1..|t| - 1] == Issued(repos, source)
  {
    FanOutIssues(repos, source, succeeds, start + 1);
    IssuedAreBackups(repos, source);
    if succeeds(start, RemountArgv("ro", p)) {
      var f := FanOut(repos, source, succeeds, start + 1);
      var t := [RemountArgv("ro", p)] + f.trace + [RemountArgv("rw", p)];
      assert t[1..|t| - 1] == f.trace;
      assert forall i :: 1 <= i < |t| - 1 ==> t[i] == f.trace[i - 1];
    }
  }

  /** A restic backup does not change the mount table. */
  lemma {:induction false} ReplayBackups(fs: MountTable, log: seq<Argv>, backups: seq<Argv>, succeeds: (nat, Argv) -> bool)
    requires forall i :: 0 <= i < |backups| ==> IsResticBackup(backups[i])
    ensures Replay(fs, log + backups, succeeds) == Replay(fs, log, succeeds)
  {
    if backups == [] {
      assert log + backups == log;
    } else {
      var pre := backups[..|backups| - 1];
      assert (log + backups)[..|log + backups| - 1] == log + pre;
      ReplayBackups(fs, log, pre, succeeds);
    }
  }

  /** After a successful read-only remount the source is read-only. */
  lemma AfterReadOnlyRemount(fs: MountTable, log: seq<Argv>, p: string, succeeds: (nat, Argv) -> bool)
    requires IsMountPoint(Replay(fs, log, succeeds), p)
    requires succeeds(|log|, RemountArgv("ro", p))
    ensures Replay(fs, log + [RemountArgv("ro", p)], succeeds) == Replay(fs, log, succeeds)[p := MountedRo]
  {
    ReplaySnoc(fs, log, RemountArgv("ro", p), succeeds);
    EffectRemount(Replay(fs, log, succeeds), p);
  }

  /** Commands that open with a successful read-only remount of a mounted
      path and go on with backups keep the path read-only. */
  lemma BracketedReadOnly(fs: MountTable, log: seq<Argv>, p: string, t: seq<Argv>, succeeds: (nat, Argv) -> bool)
    requires IsMountPoint(Replay(fs, log, succeeds), p)
    requires |t| >= 1 && t[0] == RemountArgv("ro", p)
    requires forall i :: 1 <= i < |t| ==> IsResticBackup(t[i])
    requires succeeds(|log|, RemountArgv("ro", p))
    ensures forall k :: 1 <= k <= |t| ==> MountedAs(Replay(fs, log + t[..k], succeeds), p, MountedRo)
  {
    var ro := RemountArgv("ro", p);
    AfterReadOnlyRemount(fs, log, p, succeeds);
    forall k | 1 <= k <= |t| ensures MountedAs(Replay(fs, log + t[..k], succeeds), p, MountedRo) {
      assert t[..k] == [ro] + t[1..k];
      assert log + t[..k] == (log + [ro]) + t[1..k];
      ReplayBackups(fs, log + [ro], t[1..k], succeeds);
    }
  }

  /** ... and a final successful read-write remount makes it read-write. */
  lemma BracketedMountState(fs: MountTable, log: seq<Argv>, p: string, t: seq<Argv>, succeeds: (nat, Argv) -> bool)
    requires IsMountPoint(Replay(fs, log, succeeds), p)
    requires |t| >= 2 && t[0] == RemountArgv("ro", p) && t[|t| - 1] == RemountArgv("rw", p)
    requires forall i :: 1 <= i < |t| - 1 ==> IsResticBackup(t[i])
    requires succeeds(|log|, RemountArgv("ro", p))
    ensures forall k :: 1 <= k < |t| ==> MountedAs(Replay(fs, log + t[..k], succeeds), p, MountedRo)
    ensures succeeds(|log| + |t| - 1, RemountArgv("rw", p)) ==> MountedAs(Replay(fs, log + t, succeeds), p, MountedRw)
  {
    var body := t[..|t| - 1];
    AppendLast(log, t);
    BracketedReadOnly(fs, log, p, body, succeeds);
    forall k | 1 <= k < |t| ensures MountedAs(Replay(fs, log + t[..k], succeeds), p, MountedRo) {
      assert t[..k] == body[..k];
    }
    if succeeds(|log| + |t| - 1, RemountArgv("rw", p)) {
      assert body[..|body|] == body;
      FinalRemount(fs, log + body, p, succeeds);
    }
  }

  /** A successful read-write remount of a mount point leaves it read-write. */
  lemma FinalRemount(fs: MountTable, before: seq<Argv>, p: string, succeeds: (nat, Argv) -> bool)
    requires IsMountPoint(Replay(fs, before, succeeds), p)
    requires succeeds(|before|, RemountArgv("rw", p))
    ensures MountedAs(Replay(fs, before + [RemountArgv("rw", p)], succeeds), p, MountedRw)
  {
    ReplaySnoc(fs, before, RemountArgv("rw", p), succeeds);
    EffectRemount(Replay(fs, before, succeeds), p);
  }

  /** On a mounted source the read-only phase keeps it mounted read-only
      while every backup runs, and leaves it read-write when the final
      remount succeeds. */
  lemma ReadOnlyPhaseMountState(fs: MountTable, log: seq<Argv>, p: string, source: Source, repos: seq<Repos.ResticRepo>,
                                succeeds: (nat, Argv) -> bool)
    requires IsMountPoint(Replay(fs, log, succeeds), p)
    requires succeeds(|log|, RemountArgv("ro", p))
    ensures var t := ReadOnlyPhase(p, source, repos, succeeds, |log|).trace;
      forall k :: 1 <= k < |t| ==> MountedAs(Replay(fs, log + t[..k], succeeds), p, MountedRo)
    ensures var t := ReadOnlyPhase(p, source, repos, succeeds, |log|).trace;
      succeeds(|log| + |t| - 1, RemountArgv("rw", p)) ==> MountedAs(Replay(fs, log + t, succeeds), p, MountedRw)
  {
    ReadOnlyBrackets(p, source, repos, succeeds, |log|);
    BracketedMountState(fs, log, p, ReadOnlyPhase(p, source, repos, succeeds, |log|).trace, succeeds);
  }

  /** How the configuration selects the standard run's shape: a missing
      source raises before anything is issued; without `remount_readonly`
      the run is the repository loop alone; with it, a source that is not a
      string raises before anything is issued, and a string source is
      bracketed by the two remounts. */
  lemma StandardRunCases(config: Mapping, repos: seq<Repos.ResticRepo>, succeeds: (nat, Argv) -> bool, start: nat)
    ensures !HasKey(config, "backup_source_path") ==>
      StandardRun(config, repos, succeeds, start) == JobRun([], Raised(MissingKey("backup_source_path")))
    ensures HasKey(config, "backup_source_path") && !Truthy(GetOr(config, "remount_readonly", Bool(false))) ==>
      var t := StandardRun(config, repos, succeeds, start).trace;
      StandardRun(config, repos, succeeds, start).outcome.Completed? &&
      t == Issued(repos, Standard(Get(config, "backup_source_path").value, GetOr(config, "exclude_paths", List([])))) &&
      forall i :: 0 <= i < |t| ==> IsResticBackup(t[i])
    ensures HasKey(config, "backup_source_path") && Truthy(GetOr(config, "remount_readonly", Bool(false))) ==>
      var src := Get(config, "backup_source_path").value;
      StandardRun(config, repos, succeeds, start) ==
        if src.Str? then ReadOnlyPhase(src.s, Standard(src, GetOr(config, "exclude_paths", List([]))), repos, succeeds, start)
        else JobRun([], Raised(WrongType("backup_source_path")))
  {
    if HasKey(config, "backup_source_path") {
      var source := Standard(Get(config, "backup_source_path").value, GetOr(config, "exclude_paths", List([])));
      FanOutIssues(repos, source, succeeds, start);
      IssuedAreBackups(repos, source);
    }
  }

  /** Once the snapshot was created it is always removed, as the last
      command; once it was mounted it is unmounted just before, and the
      backups of every repository run in between. */
  lemma SnapshotTeardown(vg: string, lv: string, size: string, snapshot: string, excludes: Value,
                         repos: seq<Repos.ResticRepo>, succeeds: (nat, Argv) -> bool, start: nat)
    ensures var t := SnapshotPhase(vg, lv, size, snapshot, excludes, repos, succeeds, start).trace;
      |t| >= 1 && t[0] == LvCreateArgv(vg, lv, size, snapshot) &&
      (succeeds(start, LvCreateArgv(vg, lv, size, snapshot)) ==>
        |t| >= 3 && t[1] == SnapshotMountArgv(vg, snapshot, SnapshotMountPoint(snapshot)) &&
        t[|t| - 1] == LvRemoveArgv(vg, snapshot))
    ensures !succeeds(start, LvCreateArgv(vg, lv, size, snapshot)) ==>
      SnapshotPhase(vg, lv, size, snapshot, excludes, repos, succeeds, start).trace == [LvCreateArgv(vg, lv, size, snapshot)]
    ensures succeeds(start, LvCreateArgv(vg, lv, size, snapshot)) &&
            !succeeds(start + 1, SnapshotMountArgv(vg, snapshot, SnapshotMountPoint(snapshot))) ==>
      SnapshotPhase(vg, lv, size, snapshot, excludes, repos, succeeds, start).trace ==
        [LvCreateArgv(vg, lv, size, snapshot), SnapshotMountArgv(vg, snapshot, SnapshotMountPoint(snapshot)), LvRemoveArgv(vg, snapshot)]
    ensures SnapshotPhase(vg, lv, size, snapshot, excludes, repos, succeeds, start).outcome.Completed? <==>
      succeeds(start, LvCreateArgv(vg, lv, size, snapshot)) &&
      succeeds(start + 1, SnapshotMountArgv(vg, snapshot, SnapshotMountPoint(snapshot)))
    ensures var t := SnapshotPhase(vg, lv, size, snapshot, excludes, repos, succeeds, start).trace;
      succeeds(start, LvCreateArgv(vg, lv, size, snapshot)) &&
      succeeds(start + 1, SnapshotMountArgv(vg, snapshot, SnapshotMountPoint(snapshot))) ==>
        |t| >= 4 && t[|t| - 2] == ["umount", SnapshotMountPoint(snapshot)] &&
        t[2..|t| - 2] == Issued(repos, Snapshot(SnapshotMountPoint(snapshot), excludes))
  {
    var mountPoint := SnapshotMountPoint(snapshot);
    var source := Snapshot(mountPoint, excludes);
    FanOutIssues(repos, source, succeeds, start + 2);
    if succeeds(start, LvCreateArgv(vg, lv, size, snapshot)) && succeeds(start + 1, SnapshotMountArgv(vg, snapshot, mountPoint)) {
      var f := FanOut(repos, source, succeeds, start + 2);
      var create := LvCreateArgv(vg, lv, size, snapshot);
      var mount := SnapshotMountArgv(vg, snapshot, mountPoint);
      assert MountedPhase(vg, snapshot, excludes, repos, succeeds, start + 1).trace ==
        [mount] + f.trace + [["umount", mountPoint], LvRemoveArgv(vg, snapshot)];
      Framed(create, mount, f.trace, ["umount", mountPoint], LvRemoveArgv(vg, snapshot));
    }
  }

  /** The keys are read in order vg_name, lv_name, snapshot_size,
      backup_source_path, a missing one raising before anything is issued;
      with all four present and printable, the run is the snapshot phase at
      the clock reading taken when the run starts. */
  lemma LvmRunCases(config: Mapping, repos: seq<Repos.ResticRepo>, succeeds: (nat, Argv) -> bool, clock: nat -> int, start: nat)
    ensures !HasKey(config, "vg_name") ==> LvmRun(config, repos, succeeds, clock, start) == JobRun([], Raised(MissingKey("vg_name")))
    ensures HasKey(config, "vg_name") && !HasKey(config, "lv_name") ==>
      LvmRun(config, repos, succeeds, clock, start) == JobRun([], Raised(MissingKey("lv_name")))
    ensures HasKey(config, "vg_name") && HasKey(config, "lv_name") && !HasKey(config, "snapshot_size") ==>
      LvmRun(config, repos, succeeds, clock, start) == JobRun([], Raised(MissingKey("snapshot_size")))
    ensures HasKey(config, "vg_name") && HasKey(config, "lv_name") && HasKey(config, "snapshot_size") &&
            !HasKey(config, "backup_source_path") ==>
      LvmRun(config, repos, succeeds, clock, start) == JobRun([], Raised(MissingKey("backup_source_path")))
    ensures HasKey(config, "vg_name") && HasKey(config, "lv_name") && HasKey(config, "snapshot_size") &&
            HasKey(config, "backup_source_path") ==>
      var r := LvmRun(config, repos, succeeds, clock, start);
      var lv := Format(Get(config, "lv_name").value);
      var vg := Format(Get(config, "vg_name").value);
      var size := Format(Get(config, "snapshot_size").value);
      && (lv.None? ==> r == JobRun([], Raised(Unformattable("lv_name"))))
      && (lv.Some? && vg.None? ==> r == JobRun([], Raised(Unformattable("vg_name"))))
      && (lv.Some? && vg.Some? && size.None? ==> r == JobRun([], Raised(Unformattable("snapshot_size"))))
    ensures forall vg, lv, size ::
      Get(config, "vg_name") == Some(Str(vg)) && Get(config, "lv_name") == Some(Str(lv)) &&
      Get(config, "snapshot_size") == Some(Str(size)) && HasKey(config, "backup_source_path") ==>
        LvmRun(config, repos, succeeds, clock, start) ==
          SnapshotPhase(vg, lv, size, SnapshotName(lv, clock(start)), GetOr(config, "exclude_paths", List([])), repos, succeeds, start)
  {
  }

  /** A standard-path run issues only remounts and restic backups. */
  lemma StandardRunCommands(config: Mapping, repos: seq<Repos.ResticRepo>, succeeds: (nat, Argv) -> bool, start: nat)
    ensures var t := StandardRun(config, repos, succeeds, start).trace;
      forall i :: 0 <= i < |t| ==> IsResticBackup(t[i]) || (|t[i]| == 4 && t[i][0] == "mount" && t[i][1] == "-o")
  {
    StandardRunCases(config, repos, succeeds, start);
    var src := GetOr(config, "backup_source_path", Int(0));
    if HasKey(config, "backup_source_path") && Truthy(GetOr(config, "remount_readonly", Bool(false))) && src.Str? {
      ReadOnlyBrackets(src.s, Standard(src, GetOr(config, "exclude_paths", List([]))), repos, succeeds, start);
    }
  }

  /** A logical-volume run whose volume keys are set opens with the
      lvcreate of its snapshot. */
  lemma LvmRunOpensWithCreate(config: Mapping, repos: seq<Repos.ResticRepo>, succeeds: (nat, Argv) -> bool,
                              clock: nat -> int, start: nat, vg: string, lv: string, size: string)
    requires Get(config, "vg_name") == Some(Str(vg)) && Get(config, "lv_name") == Some(Str(lv))
    requires Get(config, "snapshot_size") == Some(Str(size)) && HasKey(config, "backup_source_path")
    ensures var t := LvmRun(config, repos, succeeds, clock, start).trace;
      |t| >= 1 && t[0] == LvCreateArgv(vg, lv, size, SnapshotName(lv, clock(start)))
  {
    LvmRunCases(config, repos, succeeds, clock, start);
    SnapshotTeardown(vg, lv, size, SnapshotName(lv, clock(start)), GetOr(config, "exclude_paths", List([])),
                     repos, succeeds, start);
  }

  /** `run` routes a job with repositories by its category: a standard-path
      job issues only remounts and restic backups, never an LVM command; a
      logical-volume job whose volume keys are set opens with the lvcreate
      of its snapshot. */
  lemma JobRouting(job: BackupJobs.BackupJob, succeeds: (nat, Argv) -> bool, clock: nat -> int, start: nat,
                   vg: string, lv: string, size: string)
    requires job.repositories != []
    ensures !IsLogicalVolumeCategory(job.category) ==>
      var t := JobRunSpec(job, succeeds, clock, start).trace;
      forall i :: 0 <= i < |t| ==> IsResticBackup(t[i]) || (|t[i]| == 4 && t[i][0] == "mount" && t[i][1] == "-o")
    ensures IsLogicalVolumeCategory(job.category) &&
            Get(job.config, "vg_name") == Some(Str(vg)) && Get(job.config, "lv_name") == Some(Str(lv)) &&
            Get(job.config, "snapshot_size") == Some(Str(size)) && HasKey(job.config, "backup_source_path") ==>
      var t := JobRunSpec(job, succeeds, clock, start).trace;
      |t| >= 1 && t[0] == LvCreateArgv(vg, lv, size, SnapshotName(lv, clock(start)))
  {
    if !IsLogicalVolumeCategory(job.category) {
      StandardRunCommands(job.config, job.repositories, succeeds, start);
    } else if Get(job.config, "vg_name") == Some(Str(vg)) && Get(job.config, "lv_name") == Some(Str(lv)) &&
              Get(job.config, "snapshot_size") == Some(Str(size)) && HasKey(job.config, "backup_source_path") {
      LvmRunOpensWithCreate(job.config, job.repositories, succeeds, clock, start, vg, lv, size);
    }
  }

  // ---------------------------------------------------------------------
  // The same runs against a host.

  lemma FanOutUnbuilt(repos: seq<Repos.ResticRepo>, i: nat, source: Source, succeeds: (nat, Argv) -> bool, start: nat)
    requires i < |repos| && BackupArgv(repos[i], source).None?
    ensures var g := FanOut(repos[..i], source, succeeds, start);
      FanOut(repos[..i + 1], source, succeeds, start) == FanResult(g.trace, g.successful, g.failed + [repos[i].repoPath])
  {
    assert repos[..i + 1][..i] == repos[..i];
  }

  lemma FanOutBuilt(repos: seq<Repos.ResticRepo>, i: nat, source: Source, succeeds: (nat, Argv) -> bool, start: nat,
                    c: Argv, trace: seq<Argv>, successful: seq<string>, failed: seq<string>, ok: bool)
    requires i < |repos| && BackupArgv(repos[i], source) == Some(c)
    requires FanOut(repos[..i], source, succeeds, start) == FanResult(trace, successful, failed)
    requires ok == succeeds(start + |trace|, c)
    ensures FanOut(repos[..i + 1], source, succeeds, start) ==
      if ok then FanResult(trace + [c], successful + [repos[i].repoPath], failed)
      else FanResult(trace + [c], successful, failed + [repos[i].repoPath])
  {
    assert repos[..i + 1][..i] == repos[..i];
  }

  /** The repository loop shared by both kinds of backup. */
  method BackupToRepos(repos: seq<Repos.ResticRepo>, source: Source, host: Host) returns (successful: seq<string>, failed: seq<string>)
    modifies host
    ensures var f := FanOut(repos, source, host.succeeds, |old(host.log)|);
      host.log == old(host.log) + f.trace && successful == f.successful && failed == f.failed
  {
    ghost var start := |host.log|;
    ghost var log0 := host.log;
    ghost var trace: seq<Argv> := [];
    successful := [];
    failed := [];
    var i := 0;
    while i < |repos|
      invariant 0 <= i <= |repos|
      invariant FanOut(repos[..i], source, host.succeeds, start) == FanResult(trace, successful, failed)
      invariant host.log == log0 + trace
    {
      trace, successful, failed := BackupTurn(repos, i, source, host, log0, trace, successful, failed);
      i := i + 1;
    }
    TakeAll(repos);
  }

  /** One turn of the repository loop: a command that cannot be built
      counts the repository as failed without running anything. */
  method BackupTurn(repos: seq<Repos.ResticRepo>, i: nat, source: Source, host: Host, ghost log0: seq<Argv>,
                    ghost trace: seq<Argv>, successful: seq<string>, failed: seq<string>)
    returns (ghost trace': seq<Argv>, successful': seq<string>, failed': seq<string>)
    requires i < |repos|
    requires FanOut(repos[..i], source, host.succeeds, |log0|) == FanResult(trace, successful, failed)
    requires host.log == log0 + trace
    modifies host
    ensures FanOut(repos[..i + 1], source, host.succeeds, |log0|) == FanResult(trace', successful', failed')
    ensures host.log == log0 + trace'
  {
    var repo := repos[i];
    var cmd := BackupArgv(repo, source);
    if cmd.None? {
      FanOutUnbuilt(repos, i, source, host.succeeds, |log0|);
      return trace, successful, failed + [repo.repoPath];
    }
    var ok := host.Run(cmd.value);
    FanOutBuilt(repos, i, source, host.succeeds, |log0|, cmd.value, trace, successful, failed, ok);
    AppendAssoc(log0, trace, [cmd.value]);
    trace' := trace + [cmd.value];
    if ok {
      successful', failed' := successful + [repo.repoPath], failed;
    } else {
      successful', failed' := successful, failed + [repo.repoPath];
    }
  }

  method RunReadOnlyPhase(p: string, source: Source, repos: seq<Repos.ResticRepo>, host: Host) returns (outcome: JobOutcome)
    modifies host
    ensures var spec := ReadOnlyPhase(p, source, repos, host.succeeds, |old(host.log)|);
      host.log == old(host.log) + spec.trace && outcome == spec.outcome
  {
    ghost var log0 := host.log;
    ghost var spec := ReadOnlyPhase(p, source, repos, host.succeeds, |log0|);
    var ro := host.Run(RemountArgv("ro", p));
    if !ro {
      assert spec == JobRun([RemountArgv("ro", p), RemountArgv("rw", p)], Raised(CommandFailed(RemountArgv("ro", p))));
      var _ := host.Run(RemountArgv("rw", p));
      AppendBracket(log0, RemountArgv("ro", p), [], RemountArgv("rw", p));
      return Raised(CommandFailed(RemountArgv("ro", p)));
    }
    ghost var log1 := host.log;
    ghost var f := FanOut(repos, source, host.succeeds, |log1|);
    assert spec == JobRun([RemountArgv("ro", p)] + f.trace + [RemountArgv("rw", p)], Completed(f.successful, f.failed));
    var successful, failed := BackupToRepos(repos, source, host);
    assert host.log == log1 + f.trace && successful == f.successful && failed == f.failed;
    var _ := host.Run(RemountArgv("rw", p));
    AppendBracket(log0, RemountArgv("ro", p), f.trace, RemountArgv("rw", p));
    outcome := Completed(successful, failed);
  }

  method RunStandardBackup(config: Mapping, repos: seq<Repos.ResticRepo>, host: Host) returns (outcome: JobOutcome)
    modifies host
    ensures var spec := StandardRun(config, repos, host.succeeds, |old(host.log)|);
      host.log == old(host.log) + spec.trace && outcome == spec.outcome
  {
    var src := Get(config, "backup_source_path");
    if src.None? {
      return Raised(MissingKey("backup_source_path"));
    }
    var source := Standard(src.value, GetOr(config, "exclude_paths", List([])));
    if !Truthy(GetOr(config, "remount_readonly", Bool(false))) {
      var successful, failed := BackupToRepos(repos, source, host);
      return Completed(successful, failed);
    }
    var p := AsArg(src.value);
    if p.None? {
      return Raised(WrongType("backup_source_path"));
    }
    outcome := RunReadOnlyPhase(p.value, source, repos, host);
  }

  method RunMountedPhase(vg: string, snapshot: string, excludes: Value, repos: seq<Repos.ResticRepo>, host: Host)
    returns (outcome: JobOutcome)
    modifies host
    ensures var spec := MountedPhase(vg, snapshot, excludes, repos, host.succeeds, |old(host.log)|);
      host.log == old(host.log) + spec.trace && outcome == spec.outcome
  {
    ghost var log0 := host.log;
    ghost var spec := MountedPhase(vg, snapshot, excludes, repos, host.succeeds, |log0|);
    var mountPoint := SnapshotMountPoint(snapshot);
    var remove := LvRemoveArgv(vg, snapshot);
    var mount := SnapshotMountArgv(vg, snapshot, mountPoint);
    var mounted := host.Run(mount);
    if !mounted {
      assert spec == JobRun([mount, remove], Raised(CommandFailed(mount)));
      var _ := host.Run(remove);
      AppendBracket(log0, mount, [], remove);
      return Raised(CommandFailed(mount));
    }
    ghost var log1 := host.log;
    ghost var f := FanOut(repos, Snapshot(mountPoint, excludes), host.succeeds, |log1|);
    assert spec == JobRun([mount] + f.trace + [["umount", mountPoint], remove], Completed(f.successful, f.failed));
    var successful, failed := BackupToRepos(repos, Snapshot(mountPoint, excludes), host);
    assert host.log == log1 + f.trace && successful == f.successful && failed == f.failed;
    var _ := host.Run(["umount", mountPoint]);
    AppendBracket(log0, mount, f.trace, ["umount", mountPoint]);
    var _ := host.Run(remove);
    AppendAssoc(log0, [mount] + f.trace + [["umount", mountPoint]], [remove]);
    outcome := Completed(successful, failed);
  }

  method RunSnapshotPhase(vg: string, lv: string, size: string, snapshot: string, excludes: Value, repos: seq<Repos.ResticRepo>,
                          host: Host) returns (outcome: JobOutcome)
    modifies host
    ensures var spec := SnapshotPhase(vg, lv, size, snapshot, excludes, repos, host.succeeds, |old(host.log)|);
      host.log == old(host.log) + spec.trace && outcome == spec.outcome
  {
    ghost var log0 := host.log;
    var create := LvCreateArgv(vg, lv, size, snapshot);
    var created := host.Run(create);
    if !created {
      return Raised(CommandFailed(create));
    }
    ghost var log1 := host.log;
    outcome := RunMountedPhase(vg, snapshot, excludes, repos, host);
    assert host.log == log0 + ([create] + host.log[|log1|..]);
  }

  method RunLvmBackup(config: Mapping, repos: seq<Repos.ResticRepo>, host: Host) returns (outcome: JobOutcome)
    modifies host
    ensures var spec := LvmRun(config, repos, host.succeeds, host.clock, |old(host.log)|);
      host.log == old(host.log) + spec.trace && outcome == spec.outcome
  {
    var vgV := Get(config, "vg_name");
    if vgV.None? { return Raised(MissingKey("vg_name")); }
    var lvV := Get(config, "lv_name");
    if lvV.None? { return Raised(MissingKey("lv_name")); }
    var sizeV := Get(config, "snapshot_size");
    if sizeV.None? { return Raised(MissingKey("snapshot_size")); }
    if Get(config, "backup_source_path").None? { return Raised(MissingKey("backup_source_path")); }
    var excludes := GetOr(config, "exclude_paths", List([]));
    var lv := Format(lvV.value);
    if lv.None? { return Raised(Unformattable("lv_name")); }
    var time := host.Now();
    var vg := Format(vgV.value);
    if vg.None? { return Raised(Unformattable("vg_name")); }
    var size := Format(sizeV.value);
    if size.None? { return Raised(Unformattable("snapshot_size")); }
    outcome := RunSnapshotPhase(vg.value, lv.value, size.value, SnapshotName(lv.value, time), excludes, repos, host);
  }

  /** `BackupJob.run` against a host. */
  method Run(job: BackupJobs.BackupJob, host: Host) returns (outcome: JobOutcome)
    modifies host
    ensures var spec := JobRunSpec(job, host.succeeds, host.clock, |old(host.log)|);
      host.log == old(host.log) + spec.trace && outcome == spec.outcome
  {
    if job.repositories == [] {
      return NoRepositories;
    }
    if IsLogicalVolumeCategory(job.category) {
      outcome := RunLvmBackup(job.config, job.repositories, host);
    } else {
      outcome := RunStandardBackup(job.config, job.repositories, host);
    }
  }
}
