/** A restic repository as the snapshot workflow sees it: the base command
    every restic call starts with, the `backup` and `forget --prune` argv,
    and the snapshot count and latest snapshot read from the JSON list
    `restic snapshots --json` prints. */
module ResticCommands {
  import opened Results
  import opened PyValues
  import opened Shell
  import opened Sudo

  datatype ResticRepo = ResticRepo(repoPath: string, passwordFile: string)

  /** `s` with the prefix `p` removed, when `s` starts with it. */
  function StripPrefix(p: string, s: string): (r: Option<string>)
    ensures r.Some? <==> |p| <= |s| && s[..|p|] == p
    ensures r.Some? ==> s == p + r.value
  {
    if |p| <= |s| && s[..|p|] == p then Some(s[|p|..]) else None
  }

  lemma StripPrefixOf(p: string, s: string)
    ensures StripPrefix(p, p + s) == Some(s)
  {
    assert (p + s)[..|p|] == p && (p + s)[|p|..] == s;
  }

  /** `base_command`. */
  function BaseCommand(repo: ResticRepo): Argv
  {
    ["restic", "-r", repo.repoPath, "--password-file=" + repo.passwordFile]
  }

  /** The repository a base command addresses. */
  function ParseBaseCommand(c: Argv): Option<ResticRepo>
  {
    if |c| >= 4 && c[0] == "restic" && c[1] == "-r" then
      match StripPrefix("--password-file=", c[3])
      case None => None
      case Some(pw) => Some(ResticRepo(c[2], pw))
    else None
  }

  /** The base command has four words and names its repository and password
      file recoverably; every longer command built on it does too. */
  lemma BaseCommandRoundTrip(repo: ResticRepo, rest: Argv)
    ensures |BaseCommand(repo)| == 4
    ensures ParseBaseCommand(BaseCommand(repo) + rest) == Some(repo)
  {
    StripPrefixOf("--password-file=", repo.passwordFile);
  }

  // ---------------------------------------------------------------------
  // backup

  /** One "--exclude=" word per excluded path, in order. */
  function ExcludeArgs(paths: seq<string>): Argv
  {
    seq(|paths|, i requires 0 <= i < |paths| => "--exclude=" + paths[i])
  }

  /** The paths a run of "--exclude=" words excludes. */
  function ParseExcludes(words: Argv): Option<seq<string>>
  {
    if words == [] then Some([])
    else
      match (StripPrefix("--exclude=", words[0]), ParseExcludes(words[1..]))
      case (Some(p), Some(ps)) => Some([p] + ps)
      case _ => None
  }

  lemma {:induction false} ExcludeArgsRoundTrip(paths: seq<string>)
    ensures ParseExcludes(ExcludeArgs(paths)) == Some(paths)
  {
    var w := ExcludeArgs(paths);
    if paths != [] {
      assert w[0] == "--exclude=" + paths[0];
      StripPrefixOf("--exclude=", paths[0]);
      assert w[1..] == ExcludeArgs(paths[1..]);
      ExcludeArgsRoundTrip(paths[1..]);
      assert [paths[0]] + paths[1..] == paths;
    }
  }

  /** The exclude list `backup` is given: `None` and the empty list both
      mean no "--exclude" word. */
  function Excludes(excludePaths: Option<seq<string>>): seq<string>
  {
    match excludePaths
    case Some(ps) => ps
    case None => []
  }

  /** The argv of `backup`. */
  function BackupArgv(repo: ResticRepo, sourcePath: string, excludePaths: Option<seq<string>>): Argv
  {
    BaseCommand(repo) + ["backup", sourcePath, "--verbose"] + ExcludeArgs(Excludes(excludePaths))
  }

  datatype BackupRequest = BackupRequest(repo: ResticRepo, source: string, excludes: seq<string>)

  function ParseBackupArgv(c: Argv): Option<BackupRequest>
  {
    if |c| >= 7 && c[4] == "backup" && c[6] == "--verbose" then
      match (ParseBaseCommand(c), ParseExcludes(c[7..]))
      case (Some(repo), Some(ex)) => Some(BackupRequest(repo, c[5], ex))
      case _ => None
    else None
  }

  /** A backup argv names the repository, the source and every excluded
      path, in order, and nothing else. */
  lemma BackupArgvRoundTrip(repo: ResticRepo, sourcePath: string, excludePaths: Option<seq<string>>)
    ensures ParseBackupArgv(BackupArgv(repo, sourcePath, excludePaths)) ==
      Some(BackupRequest(repo, sourcePath, Excludes(excludePaths)))
  {
    var ex := ExcludeArgs(Excludes(excludePaths));
    var c := BackupArgv(repo, sourcePath, excludePaths);
    assert c == BaseCommand(repo) + (["backup", sourcePath, "--verbose"] + ex);
    BaseCommandRoundTrip(repo, ["backup", sourcePath, "--verbose"] + ex);
    assert c[7..] == ex;
    ExcludeArgsRoundTrip(Excludes(excludePaths));
  }

  /** Without excludes the backup argv is the base command and three words;
      otherwise one more word per excluded path. */
  lemma BackupArgvLength(repo: ResticRepo, sourcePath: string, excludePaths: Option<seq<string>>)
    ensures |BackupArgv(repo, sourcePath, excludePaths)| == 7 + |Excludes(excludePaths)|
    ensures excludePaths.None? || excludePaths == Some([]) ==>
      BackupArgv(repo, sourcePath, excludePaths) == BaseCommand(repo) + ["backup", sourcePath, "--verbose"]
  {
    assert ExcludeArgs([]) == [];
  }

  /** `backup`: run restic backup through sudo (check=True). */
  method Backup(repo: ResticRepo, sourcePath: string, excludePaths: Option<seq<string>>, host: Host) returns (r: Outcome)
    modifies host
    ensures host.log == old(host.log) + [BackupArgv(repo, sourcePath, excludePaths)]
    ensures r == Checked(BackupArgv(repo, sourcePath, excludePaths),
                         host.succeeds(|old(host.log)|, BackupArgv(repo, sourcePath, excludePaths)))
  {
    var excludeArgs := if excludePaths.Some? && excludePaths.value != [] then ExcludeArgs(excludePaths.value) else [];
    assert ExcludeArgs([]) == [];
    r := RunWithSudo(BaseCommand(repo) + ["backup", sourcePath, "--verbose"] + excludeArgs, host);
  }

  // ---------------------------------------------------------------------
  // forget --prune

  function ForgetArgv(repo: ResticRepo, snapshotId: string, dryRun: bool): Argv
  {
    BaseCommand(repo) + ["forget", snapshotId, "--prune"] + (if dryRun then ["--dry-run"] else [])
  }

  datatype ForgetRequest = ForgetRequest(repo: ResticRepo, snapshotId: string, dryRun: bool)

  function ParseForgetArgv(c: Argv): Option<ForgetRequest>
  {
    if (|c| == 7 || (|c| == 8 && c[7] == "--dry-run")) && c[4] == "forget" && c[6] == "--prune" then
      match ParseBaseCommand(c)
      case Some(repo) => Some(ForgetRequest(repo, c[5], |c| == 8))
      case None => None
    else None
  }

  /** A forget argv names the repository and the snapshot, and carries
      "--dry-run" exactly when a dry run was asked for. */
  lemma ForgetArgvRoundTrip(repo: ResticRepo, snapshotId: string, dryRun: bool)
    ensures ParseForgetArgv(ForgetArgv(repo, snapshotId, dryRun)) == Some(ForgetRequest(repo, snapshotId, dryRun))
    ensures var c := ForgetArgv(repo, snapshotId, dryRun); dryRun <==> c[|c| - 1] == "--dry-run"
  {
    var tail := ["forget", snapshotId, "--prune"] + (if dryRun then ["--dry-run"] else []);
    assert ForgetArgv(repo, snapshotId, dryRun) == BaseCommand(repo) + tail;
    BaseCommandRoundTrip(repo, tail);
    var c := ForgetArgv(repo, snapshotId, dryRun);
    assert |c| == if dryRun then 8 else 7;
    assert c[4] == "forget" && c[5] == snapshotId && c[6] == "--prune";
    assert dryRun ==> c[7] == "--dry-run";
  }

  /** `forget_and_prune_snapshot`: the argv is built by appending to a list
      in place, then run through sudo (check=True). */
  method ForgetAndPruneSnapshot(repo: ResticRepo, snapshotId: string, dryRun: bool, host: Host) returns (r: Outcome)
    modifies host
    ensures host.log == old(host.log) + [ForgetArgv(repo, snapshotId, dryRun)]
    ensures r == Checked(ForgetArgv(repo, snapshotId, dryRun),
                         host.succeeds(|old(host.log)|, ForgetArgv(repo, snapshotId, dryRun)))
  {
    var cmd := BaseCommand(repo) + ["forget", snapshotId, "--prune"];
    if dryRun {
      cmd := cmd + ["--dry-run"];
    } else {
      assert cmd + [] == cmd;
    }
    assert cmd == ForgetArgv(repo, snapshotId, dryRun);
    r := RunWithSudo(cmd, host);
  }

  // ---------------------------------------------------------------------
  // The snapshot list. `None` stands for the JSON `null`.

  /** `snapshots --json` on the repository. */
  function SnapshotsArgv(repo: ResticRepo): Argv
  {
    BaseCommand(repo) + ["snapshots", "--json"]
  }

  /** `snapshots_as_json` as written, given whether the command it issues
      exits 0. The command carries the password, so `run_with_sudo` as
      written issues it as an `echo`; a non-zero exit raises
      CalledProcessError, and otherwise `run_with_sudo` returns None, so
      reading `.stdout` from its result raises AttributeError. */
  function SnapshotsAsJsonAsWritten(repo: ResticRepo, ok: bool): Result<Option<seq<Value>>>
  {
    var cmd := SudoArgv(SnapshotsArgv(repo), Some("test123"));
    if ok then Err(NoAttribute("stdout")) else Err(CommandFailed(cmd))
  }

  /** `num_snapshots` as written: it reads `snapshots_as_json` first. */
  function NumSnapshotsAsWritten(repo: ResticRepo, ok: bool): Result<nat>
  {
    match SnapshotsAsJsonAsWritten(repo, ok)
    case Ok(snapshots) => Ok(NumSnapshots(snapshots))
    case Err(e) => Err(e)
  }

  /** `latest_snapshot` as written: it reads `snapshots_as_json` first. */
  function LatestSnapshotAsWritten(repo: ResticRepo, ok: bool): Result<Option<Value>>
  {
    match SnapshotsAsJsonAsWritten(repo, ok)
    case Ok(snapshots) => LatestSnapshot(snapshots)
    case Err(e) => Err(e)
  }

  /** As written, neither query returns, whatever restic would have listed:
      the command issued is not restic at all but an `echo`, and after it
      succeeds both queries raise AttributeError. */
  lemma SnapshotQueriesAsWrittenRaise(repo: ResticRepo, ok: bool)
    ensures SudoArgv(SnapshotsArgv(repo), Some("test123"))[0] == "echo"
    ensures NumSnapshotsAsWritten(repo, ok).Err? && LatestSnapshotAsWritten(repo, ok).Err?
    ensures ok ==> NumSnapshotsAsWritten(repo, ok).error == LatestSnapshotAsWritten(repo, ok).error == NoAttribute("stdout")
  {
    var cmd := SudoArgv(SnapshotsArgv(repo), Some("test123"));
    assert cmd[0] == cmd[..2][0];
  }

  /** `num_snapshots`: the length of the list, 0 for null or []. */
  function NumSnapshots(snapshots: Option<seq<Value>>): nat
  {
    if snapshots.Some? && snapshots.value != [] then |snapshots.value| else 0
  }

  /** `latest_snapshot`: the "short_id" of the last entry, nothing for null
      or []; an entry that is not a dict or lacks the key raises. */
  function LatestSnapshot(snapshots: Option<seq<Value>>): Result<Option<Value>>
  {
    if snapshots.Some? && snapshots.value != [] then
      var last := snapshots.value[|snapshots.value| - 1];
      if !last.Dict? then Err(WrongType("short_id"))
      else match Get(last.entries, "short_id")
        case None => Err(MissingKey("short_id"))
        case Some(id) => Ok(Some(id))
    else Ok(None)
  }

  /** The count is the list's length in every case. */
  lemma NumSnapshotsIsLength(snapshots: Option<seq<Value>>)
    ensures NumSnapshots(snapshots) == if snapshots.Some? then |snapshots.value| else 0
  {
  }

  /** When every entry is a dict with a "short_id", the latest snapshot is
      the last entry's id, and there is one exactly when the count is
      positive. */
  lemma LatestSnapshotIsLast(snapshots: Option<seq<Value>>)
    requires snapshots.Some? ==> forall i :: 0 <= i < |snapshots.value| ==>
      snapshots.value[i].Dict? && HasKey(snapshots.value[i].entries, "short_id")
    ensures LatestSnapshot(snapshots).Ok?
    ensures LatestSnapshot(snapshots).value.Some? <==> NumSnapshots(snapshots) > 0
    ensures NumSnapshots(snapshots) > 0 ==>
      var s := snapshots.value;
      LatestSnapshot(snapshots).value == Get(s[|s| - 1].entries, "short_id")
  {
  }
}
