# resticlvm orchestration, modelled in Dafny

resticlvm backs up directories and LVM logical volumes to restic
repositories. A TOML configuration lists backup jobs. Each job sits under one
of three categories (`standard_path`, `logical_volume_root`,
`logical_volume_nonroot`) and names one or more repositories. The first
four items below come from the `orchestration` package, the last three from
small modules outside it. This project models:

- **The configuration.** A configuration becomes a list of backup jobs
  (`BackupPlan`), and the repositories of every job are resolved
  (`confirm_unique_repos`). A job uses either the legacy single
  `restic_repo` or a `repositories` list. A repository path repeated inside
  one job is rejected.
- **Argument vectors.** These are built from the dispatch tables into the
  shell scripts' arguments (`get_arg_entry`, `args_list`,
  `get_args_list_for_repo`, `cmd`). The prune command of a repository is
  built the same way.
- **One job run** (`BackupJob.run`). A standard-path backup may remount its
  source read-only around the backups. A logical-volume backup creates,
  mounts, backs up from and tears down one snapshot. Each backs up to every
  repository in turn and records which succeeded.
- **The two runners.** The job runner and the prune loop pick jobs with
  category and name filters.
- **The mount guard** (`utils_mount`).
- **The LVM snapshot class** (`logical_volume.py`).
- **The restic command builders** (`restic_classes.py`).

## How the model is built

**Configuration values.** A value is a `PyValues.Value`: a string, int,
bool, list or insertion-ordered dict. Python's own operations on these
values are written out as functions. These include dict lookup with its
KeyError, truthiness, `str()` and `int()`, iteration, `" ".join`,
`str.lstrip` and `os.path.join`.

**Errors.** Every exception the code raises or catches becomes a
`Results.Error` variant inside a `Result` or an `Outcome`.

**The outside world** is the class `Shell.Host`:

- a log of every command issued, in order;
- a fixed answer to whether the n-th command succeeds;
- a clock;
- the starting mount table. The current mount table is derived from the
  commands that succeeded.

**Methods and their specifications.** The code that issues commands is
modelled as methods on a `Host`. Each method is proved to extend the log by
exactly the trace of a specification function and to return that
function's outcome. The properties the source promises are then proved
about those functions:

- the order of commands;
- the brackets set up by `finally` blocks;
- how the repositories split into `successful` and `failed`;
- the mount state at each step.

The loops that build lists (argument lists, repository lists,
`backup_jobs`, `confirm_unique_repos`) are methods with loop invariants,
proved equal to recursive reference functions.

**`run_with_sudo` is modelled as meant, not as written.** As written
(src/resticlvm/utils_run.py:31-33), a call with a password hands subprocess
`echo <password>` followed by the command, so only `echo` runs; the first
Finding below records this. Every call that passes a password is modelled
by `Sudo.RunWithSudo`, which issues the command itself. So the following
members state what the code was meant to do, not what it does:

- Mounts.Remount, Mounts.RemountReadonly, Mounts.RemountRw and
  Mounts.TemporaryRemountReadonly, with the lemmas about their commands;
- every method of LogicalVolumes.LVMSnapshot (Create, CreateMountPoint,
  DeleteMountPoint, Mount, Unmount, Destroy, PrepareForBackup,
  PostBackupCleanup, ExitAsWritten, WithAsWritten, With),
  LogicalVolumes.NewSnapshot, and the lemmas about PrepareCmds and
  CleanupCmds;
- ResticCommands.Backup and ResticCommands.ForgetAndPruneSnapshot, and
  NumSnapshots and LatestSnapshot, which read the list the snapshots
  command was meant to return.

What the code does as written is stated by Sudo.SudoArgv,
Mounts.RemountAsWrittenChangesNothing,
LogicalVolumes.CleanupAsWrittenLeavesMounted and
ResticCommands.SnapshotQueriesAsWrittenRaise. The one call without a
password, the rmdir of `post_backup_cleanup` (logical_volume.py:138), is
issued as is in both. The `_run_standard_backup` and `_run_lvm_backup`
commands call `subprocess.run` directly and do not go through
`run_with_sudo`.

**Elsewhere, where the code and its tests disagree, the model follows the
code:**

- `create_backup_job` makes no duplicate-repository check. `Plans.NoDuplicateCheck`
  shows a job that lists one repository twice gets it twice.
- A duplicate is a typed `DuplicateRepo` error, not a message text.
- `LVMSnapshot` takes no `dry_run` argument.

## Model

| member | source | states |
|---|---|---|
| Dispatch.ResourceDispatch | src/resticlvm/orchestration/dispatch.py:28-41 | a category is found exactly when it is one of the three; standard_path runs backup_path.sh with the standard-path map, the two logical-volume categories run backup_lv_root.sh and backup_lv_nonroot.sh with the logical-volume map |
| Dispatch.StandardPathMapWellFormed | src/resticlvm/orchestration/dispatch.py:8-13 | the standard-path map has exactly the tokens -r, -p, -s, -e, in that order, no token twice, and distinct tokens name distinct config keys |
| Dispatch.LogicalVolumeMapWellFormed | src/resticlvm/orchestration/dispatch.py:16-24 | the logical-volume map is -g, -l, -z followed by the standard-path entries; no token twice; injective |
| Dispatch.RepoTokensPresent | src/resticlvm/orchestration/dispatch.py:28-41 | the map of every valid category holds "-r" and "-p", which the per-repository builder replaces |
| Dispatch.ExactlyThreeCategories | src/resticlvm/orchestration/dispatch.py:28-41 | exactly three categories exist; the two logical-volume categories share one map and run different scripts |
| BackupJobs.FromTokenKeyMap | src/resticlvm/orchestration/data_classes.py:25-38 | one pair per map entry, in map order, with that entry's token and key |
| BackupJobs.FromTokenKeyMapInverse | src/resticlvm/orchestration/data_classes.py:25-38 | the map is rebuilt exactly from the pairs, and the pairs' tokens are the map's tokens |
| BackupJobs.ArgEntry | src/resticlvm/orchestration/data_classes.py:53-76 | a successful entry is two words, the first the pair's token; a missing config key raises KeyError |
| BackupJobs.ArgEntryByType | src/resticlvm/orchestration/data_classes.py:65-76 | a string gives [token, s]; a bool [token, "true"/"false"]; an int its decimal text, which int() reads back; a list of strings the space-joined list; a list holding a non-string, or a dict, a type error |
| BackupJobs.ArgsOfShape | src/resticlvm/orchestration/data_classes.py:100-113 | args_list succeeds exactly when every entry does, and then has two words per pair: the token, then the value's text |
| BackupJobs.ArgsList | src/resticlvm/orchestration/data_classes.py:100-113 | the accumulating loop computes args_list, stopping at the first error |
| BackupJobs.WithoutRepoTokensMembers | src/resticlvm/orchestration/data_classes.py:87-92 | a pair is kept exactly when its token is neither "-r" nor "-p"; no repository token is left; a list without one is kept whole |
| BackupJobs.RepoArgsShape | src/resticlvm/orchestration/data_classes.py:78-98 | the per-repository arguments end with exactly ["-r", repo_path, "-p", password_file], have two words per kept pair before them, and no earlier token position holds "-r" or "-p" |
| BackupJobs.GetArgsListForRepo | src/resticlvm/orchestration/data_classes.py:78-98 | the loop with its `continue` computes the per-repository argument list |
| BackupJobs.StandardPathRepoPairs | src/resticlvm/orchestration/data_classes.py:87-92 | with the standard-path map only the -s and -e pairs remain, in that order |
| BackupJobs.Cmd | src/resticlvm/orchestration/data_classes.py:135-145 | cmd succeeds exactly when args_list does, and is ["bash", script path] followed by args_list |
| BackupJobs.CmdForRepo | src/resticlvm/orchestration/data_classes.py:124-133 | the per-repository command is ["bash", script path] followed by the per-repository arguments |
| BackupJobs.CmdShape | src/resticlvm/orchestration/data_classes.py:124-145 | cmd has 2 + 2n words for n pairs; the per-repository command ends with the four repository words |
| BackupExecution.ExcludeArgs | src/resticlvm/orchestration/data_classes.py:208-210 | one ("--exclude", path) pair per exclude entry, in order; fails exactly when an entry is not a string |
| BackupExecution.BackupArgvShape | src/resticlvm/orchestration/data_classes.py:202-210 | a backup command can be built exactly when the source is a string and every exclude entry is; then it is restic, -r, the path, --password-file, the file, backup, the source, then one --exclude pair per entry |
| BackupExecution.SnapshotExcludeRerooted | src/resticlvm/orchestration/data_classes.py:309-312 | a snapshot exclude is the mount point, a slash, and the configured path without its leading slashes |
| BackupExecution.SnapshotExcludesUnderMount | src/resticlvm/orchestration/data_classes.py:256-257 | every adjusted exclude of a snapshot backup begins with the snapshot's mount point and a slash |
| BackupExecution.SnapshotMountPointShape | src/resticlvm/orchestration/data_classes.py:256-257 | the snapshot mount point is an absolute path other than "/", ending in a digit |
| BackupExecution.SnapshotNamesDistinct | src/resticlvm/orchestration/data_classes.py:256 | two different time readings give two different snapshot names |
| BackupExecution.FanOutPartition | src/resticlvm/orchestration/data_classes.py:196-226 | every repository lands in exactly one of successful and failed: together they are a permutation of the repository paths |
| BackupExecution.FanOutStep | src/resticlvm/orchestration/data_classes.py:200-226 | each turn of the repository loop adds its repository to exactly one of the two lists |
| BackupExecution.FanOutIssues | src/resticlvm/orchestration/data_classes.py:196-226 | the commands issued do not depend on earlier outcomes: the loop continues past failures and issues the buildable repositories' commands in order |
| BackupExecution.IssuedAll | src/resticlvm/orchestration/data_classes.py:196-218 | when every command can be built, the i-th command issued backs up the i-th repository |
| BackupExecution.IssuedAreBackups | src/resticlvm/orchestration/data_classes.py:213-218 | every command the repository loop issues is a restic backup |
| BackupExecution.FanOutAllSucceed | src/resticlvm/orchestration/data_classes.py:219-220 | when every command is built and succeeds, all repositories are successful, in order, and none failed |
| BackupExecution.FanOutUnbuildable | src/resticlvm/orchestration/data_classes.py:224-226 | a repository whose command cannot be built fails without any command being issued |
| BackupExecution.ReadOnlyBrackets | src/resticlvm/orchestration/data_classes.py:184-237 | with remount_readonly, "remount,ro" is the first command and "remount,rw" the last, issued even when the first fails; the run raises exactly when the ro remount fails; otherwise every backup lies between the two |
| BackupExecution.StandardRunCases | src/resticlvm/orchestration/data_classes.py:171-193 | a missing backup_source_path raises before any command; without remount_readonly, only restic backups are issued; with it, a non-string source raises before any command and a string source is bracketed by the two remounts |
| BackupExecution.ReadOnlyPhaseMountState | src/resticlvm/orchestration/data_classes.py:184-237 | on a mounted source whose ro remount succeeds, the source is read-only while every backup runs, and read-write after a successful final remount |
| BackupExecution.BracketedMountState | src/resticlvm/orchestration/data_classes.py:186-193 | a successful ro remount followed by backups keeps the path read-only; a final successful rw remount makes it read-write |
| BackupExecution.ReplayBackups | src/resticlvm/orchestration/data_classes.py:213-218 | restic backups change no mount |
| BackupExecution.SnapshotTeardown | src/resticlvm/orchestration/data_classes.py:261-356 | lvcreate is the first command. A failed lvcreate issues nothing more. Once the snapshot exists, lvremove is the last command. A failed mount gives exactly lvcreate, mount, lvremove. After a successful mount, umount comes just before lvremove and every backup lies between mount and umount. The run completes exactly when lvcreate and mount both succeed |
| BackupExecution.LvmRunCases | src/resticlvm/orchestration/data_classes.py:249-266 | vg_name, lv_name, snapshot_size and backup_source_path are read in that order, a missing one raising before any command; then lv_name, vg_name and snapshot_size are formatted in that order, a list or dict raising before any command; otherwise the run is the snapshot phase named from the clock reading at the start |
| BackupExecution.StandardRunCommands | src/resticlvm/orchestration/data_classes.py:171-237 | a standard-path run issues only remounts and restic backups |
| BackupExecution.LvmRunOpensWithCreate | src/resticlvm/orchestration/data_classes.py:264-277 | a logical-volume run whose volume keys are present opens with the lvcreate of its snapshot |
| BackupExecution.JobRouting | src/resticlvm/orchestration/data_classes.py:165-169 | a job with repositories in any category but the two logical-volume ones takes the standard path and issues only remounts and restic backups; a logical-volume job whose volume keys are set opens with the lvcreate of its snapshot |
| BackupExecution.JobRunAccounts | src/resticlvm/orchestration/data_classes.py:147-169 | a job issues nothing exactly when it has no repositories; a completed run accounts for every repository exactly once |
| BackupExecution.StandardRunAccounts | src/resticlvm/orchestration/data_classes.py:171-240 | a completed standard-path run partitions the repositories into successful and failed |
| BackupExecution.LvmRunAccounts | src/resticlvm/orchestration/data_classes.py:242-366 | a completed logical-volume run partitions the repositories into successful and failed |
| BackupExecution.BackupToRepos | src/resticlvm/orchestration/data_classes.py:196-226 | the loop extends the host's log by exactly the repository loop's commands and returns its successful and failed lists |
| BackupExecution.RunReadOnlyPhase | src/resticlvm/orchestration/data_classes.py:184-237 | the try/finally with remounts issues exactly the phase's commands and ends with its outcome |
| BackupExecution.RunStandardBackup | src/resticlvm/orchestration/data_classes.py:171-240 | `_run_standard_backup` on a host issues exactly StandardRun's commands and ends with its outcome |
| BackupExecution.RunMountedPhase | src/resticlvm/orchestration/data_classes.py:284-356 | mount, backups and guarded teardown issue exactly the phase's commands |
| BackupExecution.RunSnapshotPhase | src/resticlvm/orchestration/data_classes.py:264-356 | lvcreate, then the mounted phase only if it succeeded, with lvremove guarded by the created flag |
| BackupExecution.RunLvmBackup | src/resticlvm/orchestration/data_classes.py:242-366 | `_run_lvm_backup` on a host, reading the clock once, issues exactly LvmRun's commands |
| BackupExecution.Run | src/resticlvm/orchestration/data_classes.py:147-169 | `BackupJob.run` on a host issues exactly JobRunSpec's commands and ends with its outcome |
| Repos.NewResticRepo | src/resticlvm/orchestration/restic_repo.py:36-48 | the fields are as given, and omitted copy destinations become the empty list |
| Repos.ParseKeepFields | src/resticlvm/orchestration/restic_repo.py:133-139 | the five retention counts are read each from its own prune_keep_* key; the parse succeeds exactly when each read does |
| Repos.PruneArgv | src/resticlvm/orchestration/restic_repo.py:63-75 | nine words, or ten with a dry run, starting bash, script, repository, password file; the last word is "--dry-run" exactly when a dry run is asked for |
| Repos.PruneArgvRoundTrip | src/resticlvm/orchestration/restic_repo.py:63-75 | script, repository, password file, all five keep values and the dry-run flag are read back from the prune argv |
| Repos.Prune | src/resticlvm/orchestration/restic_repo.py:50-93 | prune issues exactly its one command and reports a failure in its result, never raising |
| Repos.EntryFields | src/resticlvm/orchestration/restic_repo.py:130-140 | an entry is read exactly when repo_path and password_file are strings and each count reads; the repository then holds those values and no copy destinations |
| Repos.CollectEntries | src/resticlvm/orchestration/restic_repo.py:116-140 | the loop over a job's entries with its seen-path set computes the job's repository list |
| Repos.CollectJobRepos | src/resticlvm/orchestration/restic_repo.py:116-154 | the body of the job loop chooses the repositories list or the legacy keys |
| Repos.ConfirmUniqueRepos | src/resticlvm/orchestration/restic_repo.py:96-158 | the nested loops over categories and jobs compute the result, stopping at the first error |
| Repos.CollectReposOk | src/resticlvm/orchestration/restic_repo.py:120-140 | an accepted job has one repository per entry, in order, each read from its own entry, no two with the same path |
| Repos.CollectReposAccepts | src/resticlvm/orchestration/restic_repo.py:120-140 | conversely, a job whose entries all parse with distinct paths is accepted |
| Repos.DuplicateRejected | src/resticlvm/orchestration/restic_repo.py:124-127 | two entries of one job with the same repo_path make the job fail whatever their other fields; when the earlier entries are fine, the error names that path |
| Repos.LegacyIsSingleEntry | src/resticlvm/orchestration/restic_repo.py:141-154 | a legacy job means the same as a repositories list with one entry made of restic_repo, restic_password_file and the counts |
| Repos.ReposOfJobsOk | src/resticlvm/orchestration/restic_repo.py:114-156 | the configuration is accepted exactly when each job is; the result then has one entry per job, in order, with that job's repositories; no check spans two jobs |
| Repos.AllJobsMembers | src/resticlvm/orchestration/restic_repo.py:114-115 | every job of every category is visited, and nothing else |
| Repos.JobKeysDistinct | src/resticlvm/orchestration/restic_repo.py:156 | in a configuration with unique keys, the result's (category, job) keys are distinct, so it is a dict with one entry per job |
| Repos.GatherOk | src/resticlvm/orchestration/restic_repo.py:114-156 | collecting results in order succeeds exactly when each does, keeping each value in its place |
| Plans.BackupPlan.constructor | src/resticlvm/orchestration/backup_plan.py:21-31 | the plan holds the loaded configuration and the dry-run flag |
| Plans.BackupPlan.CreateBackupJob | src/resticlvm/orchestration/backup_plan.py:33-112 | computes CreateJob |
| Plans.BackupPlan.BackupJobs | src/resticlvm/orchestration/backup_plan.py:114-125 | the nested loops compute AllBackupJobs, stopping at the first error |
| Plans.ReadCopyDestinations | src/resticlvm/orchestration/backup_plan.py:61-74 | the copy_to loop computes the copy destinations |
| Plans.ReadEntries | src/resticlvm/orchestration/backup_plan.py:59-87 | the repositories loop, re-reading copy_to for each entry, computes the repository list |
| Plans.ReadRepositories | src/resticlvm/orchestration/backup_plan.py:55-100 | picks the new format or the legacy format |
| Plans.InvalidCategoryFirst | src/resticlvm/orchestration/backup_plan.py:46-47 | a category outside the dispatch table is rejected whatever the configuration holds |
| Plans.CopyDestinationsRead | src/resticlvm/orchestration/backup_plan.py:60-74 | the copy destinations are the copy_to elements in order, each keeping its repo value and reading its password file and counts; any bad element fails |
| Plans.PlanReposNewFormat | src/resticlvm/orchestration/backup_plan.py:57-87 | an empty list gives no repositories; otherwise one repository per entry, in order, each with its own fields and keep values and the job's copy destinations |
| Plans.SharedCopyDestinations | src/resticlvm/orchestration/backup_plan.py:60-74 | all repositories of a job carry the same copy destinations, parsed from copy_to, and none without copy_to |
| Plans.PlanReposLegacy | src/resticlvm/orchestration/backup_plan.py:88-100 | a legacy job has exactly one repository, read from restic_repo, restic_password_file and the counts, with no copy destinations |
| Plans.PlanAgreesWithUniqueCheck | src/resticlvm/orchestration/backup_plan.py:55-100 | without copy_to, a job the uniqueness check accepts gets from the plan exactly the repositories that check computed |
| Plans.NoDuplicateCheck | src/resticlvm/orchestration/backup_plan.py:57-87 | the plan makes no duplicate check: an entry listed twice gives that repository twice, while confirm_unique_repos rejects the job |
| Plans.CreateJobFields | src/resticlvm/orchestration/backup_plan.py:46-112 | a job is created exactly when the category, the job and its repositories are found; it carries the category's script, one pair per map entry in order, the job table, name, category, dry-run flag and repositories |
| Plans.AllBackupJobsOk | src/resticlvm/orchestration/backup_plan.py:114-125 | backup_jobs succeeds exactly when every job can be created; an empty configuration gives no jobs |
| Plans.AllBackupJobsShape | src/resticlvm/orchestration/backup_plan.py:114-125 | one job per (category, name), in configuration order |
| Plans.AllBackupJobsTables | src/resticlvm/orchestration/backup_plan.py:114-125 | in a configuration with unique keys, each job's table is the one listed under its category and name |
| Runner.BackupJobRunner.constructor | src/resticlvm/orchestration/backup_runner.py:19-25 | the runner keeps the job list as given |
| Runner.BackupJobRunner.RunAllJobs | src/resticlvm/orchestration/backup_runner.py:27-39 | the loop's commands and outcomes are those of RunAll; it raises the error of the job that raised, if any |
| Runner.RunJob | src/resticlvm/orchestration/backup_runner.py:39 | one job run extends the log by that job's commands |
| Runner.SelectMembers | src/resticlvm/orchestration/backup_runner.py:34-38 | a job is selected exactly when it is in the list and both filters let it through |
| Runner.SelectAppend | src/resticlvm/orchestration/backup_runner.py:34-38 | filtering keeps the order: it distributes over concatenation |
| Runner.SelectSingle | src/resticlvm/orchestration/backup_runner.py:35-38 | a single job is kept exactly when both filters let it through |
| Runner.NoFilterSelectsAll | src/resticlvm/orchestration/backup_runner.py:35-37 | a None or empty-string filter selects every job, in order |
| Runner.FilterIsEquality | src/resticlvm/orchestration/backup_runner.py:35-38 | a non-empty filter lets through exactly the value it names |
| Runner.RunJobsStops | src/resticlvm/orchestration/backup_runner.py:34-39 | at most one outcome per selected job; one for each of them unless one raises, which is then the last outcome, every earlier one being normal (which job each outcome belongs to is stated turn by turn in Runner.RunStep) |
| Runner.RunJobsFirst | src/resticlvm/orchestration/backup_runner.py:34-39 | the first selected job runs first, and its commands open the log |
| Runner.RunStep | src/resticlvm/orchestration/backup_runner.py:35-39 | a job the filters stop leaves everything as it was; a selected job adds its commands and outcome |
| PruneRunner.PruneRepos | src/resticlvm/orchestration/prune_runner.py:50-60 | an error of confirm_unique_repos raises before any prune; otherwise exactly the prune commands of the chosen repositories are issued, in order, and failures do not stop later prunes |
| PruneRunner.PruneLists | src/resticlvm/orchestration/prune_runner.py:52-60 | the loop with its two continue filters issues the chosen repositories' prune commands, in order |
| PruneRunner.PruneJob | src/resticlvm/orchestration/prune_runner.py:58-60 | each repository of a job is pruned once, in list order |
| PruneRunner.ChosenMembers | src/resticlvm/orchestration/prune_runner.py:52-60 | a repository is pruned exactly when it belongs to a job both filters let through |
| PruneRunner.DryRunPassedOn | src/resticlvm/orchestration/prune_runner.py:60 | the k-th command prunes the k-th chosen repository with its own keep values and carries the dry-run flag unchanged |
| PruneRunner.NoFilterPrunesAll | src/resticlvm/orchestration/prune_runner.py:53-56 | without filters, or with empty-string filters, every repository of every job is pruned, job after job |
| PruneRunner.SharedRepoPrunedTwice | src/resticlvm/orchestration/prune_runner.py:52-60 | a repository listed under two jobs is pruned once for each job |
| PruneRunner.BothFiltersPruneOneJob | src/resticlvm/orchestration/prune_runner.py:52-56 | with both filters set, exactly the repositories of the one matching job are pruned, in order |
| PruneRunner.NoneChosen | src/resticlvm/orchestration/prune_runner.py:52-56 | when no job matches the filters, nothing is pruned |
| PruneRunner.ChosenAppend | src/resticlvm/orchestration/prune_runner.py:52-56 | choosing distributes over concatenation of job lists |
| PruneRunner.RepoCommandsAppend | src/resticlvm/orchestration/prune_runner.py:58-60 | the commands for two runs of repositories are those of each in turn |
| Mounts.Remount | src/resticlvm/utils_mount.py:8-38 | the shared body of the two remounts issues RemountSpec's commands and leaves its mount table |
| Mounts.RemountReadonly | src/resticlvm/utils_mount.py:8-22 | remount_readonly on a host: its checks, then the ro remount |
| Mounts.RemountRw | src/resticlvm/utils_mount.py:25-38 | remount_rw on a host: its checks, then the rw remount |
| Mounts.TemporaryRemountReadonly | src/resticlvm/utils_mount.py:41-50 | the context manager on a host issues TemporarySpec's commands and leaves its mount table |
| Mounts.BodyThenReadWrite | src/resticlvm/utils_mount.py:46-50 | the body runs only if the ro remount returned, and the rw remount of the finally block always runs |
| Mounts.ChecksBeforeCommand | src/resticlvm/utils_mount.py:9-12 | a missing path raises not-found and an unmounted path not-a-mount-point, both before any command and changing nothing; a command is issued exactly on a mount point |
| Mounts.RemountSetsMode | src/resticlvm/utils_mount.py:14-38 | on a mount point exactly ["mount", "-o", "remount,ro"/"remount,rw", path] is issued; success sets the path's mode and changes nothing else; failure raises and changes nothing |
| Mounts.ReadOnlyThenReadWrite | src/resticlvm/utils_mount.py:8-38 | ro followed by rw, both successful, leaves the path rw, so a path that was rw is back as it was |
| Mounts.TemporaryRefusesNonMountPoint | src/resticlvm/utils_mount.py:46-50 | on a path that is missing or not a mount point, no command is issued and the body never runs; the rw check's error is raised |
| Mounts.TemporaryRestoresReadWrite | src/resticlvm/utils_mount.py:41-50 | on a mount point, the ro remount opens and the rw remount always closes, even when the body raises or the ro remount fails; the body runs exactly when ro succeeded; a successful rw leaves the path rw; the error raised is rw's, else ro's, else the body's |
| Mounts.ReadOnlyWhileBodyRuns | src/resticlvm/utils_mount.py:46-48 | on a mount point the body leaves alone, once the ro remount has returned the path is read-only before the body's first command, after each of them and up to the finally block, as test/test_utils_mount.py:48-49 and 59-60 expect |
| Mounts.RunFromKeeps | src/resticlvm/utils_mount.py:46-50 | commands that do not end in the path leave its mount entry as it was |
| Mounts.RemountAsWrittenChangesNothing | src/resticlvm/utils_mount.py:14-22 | as written, the password prefix turns each remount into an echo that changes no mount, so a rw mount point stays rw |
| Sudo.SudoArgv | src/resticlvm/utils_run.py:31-33 | with a non-empty password the argv is echo, the password, then the intended command's words; without one it is the command |
| Sudo.EchoChangesNothing | src/resticlvm/utils_run.py:31-33 | the argv run with a password changes no mount |
| Sudo.RunWithSudo | src/resticlvm/utils_run.py:22-33 | the intended command is issued as is, and a non-zero exit raises (check=True) |
| Sudo.CheckedRunAllSucceed | src/resticlvm/utils_run.py:33 | checked commands run in turn all run and pass when each succeeds |
| Sudo.CheckedRunStopsAt | src/resticlvm/utils_run.py:33 | checked commands run in turn stop at the first failure, which is raised |
| ResticCommands.BaseCommandRoundTrip | src/resticlvm/restic_classes.py:14-21 | the base command has four words and its repository and password file are read back from it, or from any command built on it |
| ResticCommands.ExcludeArgsRoundTrip | src/resticlvm/restic_classes.py:52-56 | the "--exclude=" words give back the excluded paths, in order |
| ResticCommands.BackupArgvRoundTrip | src/resticlvm/restic_classes.py:50-63 | a backup argv names the repository, the source and every excluded path, in order, and nothing else |
| ResticCommands.BackupArgvLength | src/resticlvm/restic_classes.py:50-63 | the argv has 7 words plus one per exclude; with excludes None or empty it is the base command, backup, the source and --verbose |
| ResticCommands.Backup | src/resticlvm/restic_classes.py:50-63 | backup issues exactly its one argv, raising when it fails |
| ResticCommands.ForgetArgvRoundTrip | src/resticlvm/restic_classes.py:39-44 | a forget argv names the repository and the snapshot and ends in "--dry-run" exactly when asked |
| ResticCommands.ForgetAndPruneSnapshot | src/resticlvm/restic_classes.py:39-46 | the in-place append yields the forget argv, issued once |
| ResticCommands.NumSnapshotsIsLength | src/resticlvm/restic_classes.py:30-32 | over the list `snapshots_as_json` was meant to return (as written it raises; third Finding), the count is the list's length, 0 for null |
| ResticCommands.LatestSnapshotIsLast | src/resticlvm/restic_classes.py:34-37 | over the list `snapshots_as_json` was meant to return, the latest snapshot is the last entry's short_id, and exists exactly when the count is positive |
| ResticCommands.SnapshotQueriesAsWrittenRaise | src/resticlvm/restic_classes.py:23-37 | as written, the snapshots command goes out as an `echo`, and num_snapshots and latest_snapshot never return: a failing command raises CalledProcessError, a succeeding one leaves None, whose `.stdout` raises AttributeError |
| LogicalVolumes.DevicePathRoundTrip | src/resticlvm/logical_volume.py:54-56 | "/dev/" + vg_name + "/" + lv_name names the group and volume unambiguously when the group name has no slash |
| LogicalVolumes.TimestampRoundTrip | src/resticlvm/logical_volume.py:68 | the fourteen-digit timestamp reads back as the date and time it was taken from |
| LogicalVolumes.SnapshotNamesDistinct | src/resticlvm/logical_volume.py:68-70 | snapshots taken at different readings get different names, none equal to the origin's |
| LogicalVolumes.SnapshotDeviceNotOrigin | src/resticlvm/logical_volume.py:83-85 | the snapshot's device path is never the origin's, so destroy cannot remove the origin |
| LogicalVolumes.LvCreateArgvRoundTrip | src/resticlvm/logical_volume.py:87-98 | lvcreate asks for a snapshot named after the origin and the reading, of the origin's device, never the snapshot's own, with a size word that reads back as the size then the unit |
| LogicalVolumes.PrepareOrder | src/resticlvm/logical_volume.py:100-118 | mkdir -p of the mount point comes first, and the mount runs only after it succeeded |
| LogicalVolumes.CleanupOrder | src/resticlvm/logical_volume.py:120-139 | umount comes first, and lvremove -y runs exactly when umount and rmdir succeeded; cleanup passes exactly when all three do |
| LogicalVolumes.CleanupAsWrittenLeavesMounted | src/resticlvm/logical_volume.py:120-139 | as written, cleaning up a mounted snapshot never issues umount or lvremove, only their echoes, and leaves the mount table as it was; when the rmdir fails on the mount point still in use, the cleanup raises there and destroy is never reached |
| LogicalVolumes.LifecycleRestoresTable | src/resticlvm/logical_volume.py:100-139 | with every command succeeding, preparing mounts the snapshot rw and cleaning up leaves the mount table as it was |
| LogicalVolumes.WithCleansUp | src/resticlvm/logical_volume.py:76-81 | with an `__exit__` that accepts the with-statement's arguments, the cleanup follows the body whether or not it raised, starting with umount |
| LogicalVolumes.WithAsWrittenLeaksSnapshot | src/resticlvm/logical_volume.py:80-81 | as written, a with-block over a prepared snapshot issues no cleanup command and raises the TypeError of `__exit__` |
| LogicalVolumes.LVMSnapshot.constructor | src/resticlvm/logical_volume.py:60-73 | the fields are as given, and the name is lv_name + "_snap_" + the timestamp of the reading |
| LogicalVolumes.LVMSnapshot.Create | src/resticlvm/logical_volume.py:87-98 | `_create` issues exactly the lvcreate argv |
| LogicalVolumes.LVMSnapshot.CreateMountPoint | src/resticlvm/logical_volume.py:100-103 | issues exactly mkdir -p of the mount point |
| LogicalVolumes.LVMSnapshot.DeleteMountPoint | src/resticlvm/logical_volume.py:105-106 | issues exactly rmdir of the mount point |
| LogicalVolumes.LVMSnapshot.Mount | src/resticlvm/logical_volume.py:108-114 | issues exactly the mount of the snapshot device on the mount point |
| LogicalVolumes.LVMSnapshot.Unmount | src/resticlvm/logical_volume.py:120-125 | issues exactly umount of the mount point |
| LogicalVolumes.LVMSnapshot.Destroy | src/resticlvm/logical_volume.py:127-133 | issues exactly lvremove -y of the snapshot's own device |
| LogicalVolumes.LVMSnapshot.PrepareForBackup | src/resticlvm/logical_volume.py:116-118 | issues the prepare commands in order, stopping at the first failure |
| LogicalVolumes.LVMSnapshot.PostBackupCleanup | src/resticlvm/logical_volume.py:135-139 | issues umount, rmdir and lvremove in order, stopping at the first failure |
| LogicalVolumes.LVMSnapshot.ExitAsWritten | src/resticlvm/logical_volume.py:80-81 | called with any argument besides the instance, `__exit__` raises and issues nothing; called with none it runs the cleanup |
| LogicalVolumes.LVMSnapshot.WithAsWritten | src/resticlvm/logical_volume.py:76-81 | the with-statement as written: prepare, the body, then the TypeError |
| LogicalVolumes.LVMSnapshot.With | src/resticlvm/logical_volume.py:76-81 | the with-statement with a working `__exit__`: prepare, the body, then the cleanup |
| LogicalVolumes.NewSnapshot | src/resticlvm/logical_volume.py:60-74 | constructing a snapshot sets its fields, then issues lvcreate once, raising if it fails |
| PyValues.ParseIntRoundTrip | src/resticlvm/orchestration/data_classes.py:71 | int(str(i)) == i: an int argument's text reads back as the int |
| PyValues.ParseIntIgnoresSpace | src/resticlvm/orchestration/backup_plan.py:80-84 | white space before and after a number does not change what int() reads |
| PyValues.GroupSeparator | src/resticlvm/orchestration/backup_plan.py:80-84 | an underscore between two digits is a separator: dropping it leaves the value unchanged |
| PyValues.DoubledSeparatorRejected | src/resticlvm/orchestration/backup_plan.py:80-84 | two underscores in a row make int() raise ValueError, wherever they stand |
| PyValues.LeadingSeparatorRejected | src/resticlvm/orchestration/backup_plan.py:80-84 | digits that start with an underscore make int() raise ValueError |
| PyValues.Get | src/resticlvm/orchestration/data_classes.py:65 | a dict lookup finds a value exactly when the key is present, and then it is the value bound to the key |

## Left out

- **Processes and output.** Running processes is reduced to the host's log and its success answers. That covers `subprocess.run`, stdout/stderr, and every `print`, including the message at src/resticlvm/restic_classes.py:48. A command's exit status is the only thing the model learns from it.
- **The backup summary.** `_print_backup_summary` (src/resticlvm/orchestration/data_classes.py:368-383) only formats; the model keeps the successful and failed lists it is given.
- **Local directory calls in `_run_lvm_backup`.** `os.makedirs` (data_classes.py:282) and `os.path.exists`/`os.rmdir` (data_classes.py:358-363) are not commands; the model issues nothing and changes no mount for them. Their failures are not modelled.
- **The SSH_AUTH_SOCK environment** for prune (restic_repo.py:80-81) is not modelled: it changes no argv.
- **`snapshots_as_json`** (restic_classes.py:23-28) as written never returns a list (third Finding). NumSnapshots and LatestSnapshot model the intended queries: they take the list that `restic snapshots --json` prints as an input (`None` for JSON null). Running restic, capturing its output and JSON parsing are not modelled, nor are other JSON values.
- **The clock and local time.**
  - `int(time.time())` is the host's clock, read once per logical-volume run.
  - `datetime.now()` is a parameter.
  - LogicalVolumes.Timestamp pads every year to four digits; years below 1000 or above 9999 are outside the model.
- **Floats, date-times, None.** Floats (data_classes.py:68), TOML date-times and None are not configuration values in this model, so the float branch of `get_arg_entry` is left out.
- **Paths.** `Path` normalisation is not modelled: `Path(s)` and `str(Path(s))` are taken to be `s`. This includes collapsing repeated or trailing slashes.
- **repr of a list or dict.** Such a value interpolated into an f-string gives the model error `Unformattable` instead of its repr text.
- **Script paths.** `pkg_resources.files(scripts)` is a parameter: the scripts directory for `script_path`, the prune script path for `prune`.
- **Configuration loading.** `BackupPlan.__init__` reads the TOML file at a path; the constructor takes the loaded configuration. TOML loading itself is not modelled.
- **Not part of this model:**
  - privilege elevation;
  - the argparse `main` functions beyond the prune loop;
  - src/resticlvm/app.py;
  - `optional_run` (utils_run.py:4-19), which the modelled code does not use.
- **The older root-level copies are not part of this model:**
  - src/resticlvm/backup_plan.py, data_classes.py, dispatch.py, backup_runner.py and prune_runner.py;
  - backup_jobs_new.py, backup_jobs.py, restic_snapshot.py, local_classes.py, utils_chroot.py and mount_utils.py.
- **Exceptions in the repository loop.** The loop's `except Exception` is modelled by the cases that can raise there: a non-string source or exclude entry, and an exclude value that cannot be iterated. Interrupts and other signals are not modelled.
- **Repository paths that are not strings.** confirm_unique_repos raises a type error for these before or at the duplicate check, and the model raises `WrongType`. The model does not keep apart which Python exception that is.
- BackupExecution.LvmRunCases: states the snapshot phase only for string-valued vg_name, lv_name and snapshot_size. LvmRun itself also formats int and bool values, but the lemma does not cover that case.
- BackupExecution.LvmRunOpensWithCreate: requires string-valued volume keys, for the same reason.
- BackupExecution.JobRouting: its logical-volume half requires string-valued volume keys, for the same reason.
- Mounts.TemporaryRestoresReadWrite: requires a body that issues no command ending in the guarded path. A body that remounts the path itself may leave it in another state.
- Mounts.ReadOnlyWhileBodyRuns: requires the same of the body, for the same reason.
- LogicalVolumes.SnapshotNamesDistinct: requires both readings to satisfy ValidDateTime (four-digit years), the range Timestamp covers.
- LogicalVolumes.DevicePathRoundTrip: requires a volume group name without a slash. LVM forbids one anyway.
- PyValues.ParseInt: reads ASCII digits and the ASCII white space `str.isspace()` accepts. Python's `int()` also accepts the other Unicode decimal digits and Unicode white space such as U+00A0, which the model rejects as BadInt.
- ResticCommands.LatestSnapshotIsLast: requires every entry to be a dict with a "short_id". Otherwise LatestSnapshot gives the `WrongType` or `MissingKey` error.

## Findings

| source | as written | input that shows it | evidently intended | confidence | as-written member | corrected member |
|---|---|---|---|---|---|---|
| src/resticlvm/utils_run.py:31-33 | with a password, the argv handed to subprocess is `["echo", password] + cmd`, so the process run is `echo`, which prints the words and exits 0 | `remount_readonly` on a read-write mount point: the argv is echo, test123, mount, -o, remount,ro, the path; it succeeds and the path stays read-write | the password feeds sudo and the command itself runs | not executed | Mounts.RemountAsWrittenChangesNothing | Mounts.RemountSetsMode |
| src/resticlvm/logical_volume.py:135-139 | through the first row, the umount and the lvremove of `post_backup_cleanup` carry the password and run only `echo`; the rmdir carries none and runs | `post_backup_cleanup` on a mounted snapshot: the snapshot stays mounted, so the rmdir fails on the mount point in use, the cleanup raises and `destroy` is never reached | umount, rmdir and lvremove run in turn | not executed | LogicalVolumes.CleanupAsWrittenLeavesMounted | LogicalVolumes.CleanupOrder |
| src/resticlvm/restic_classes.py:23-28 | `run_with_sudo` has no return statement, so `subproces_output.stdout` reads an attribute of None; nor does it capture stdout, so a returned result would hand `json.loads` None | `num_snapshots` or `latest_snapshot` on any repository: AttributeError once the command exits 0 | `snapshots_as_json` returns the list `restic snapshots --json` prints | not executed | ResticCommands.SnapshotQueriesAsWrittenRaise | ResticCommands.LatestSnapshotIsLast |
| src/resticlvm/logical_volume.py:80-81 | `__exit__(self)` takes no argument besides the instance, but the with-statement passes three | `with snapshot:` around any body: leaving the block raises TypeError before `post_backup_cleanup` is called | `__exit__(self, exc_type, exc, tb)` runs the cleanup | not executed | LogicalVolumes.WithAsWrittenLeaksSnapshot | LogicalVolumes.WithCleansUp |
