/** Backup destinations: retention parameters, a repository with its prune
    command, and the resolution of a whole configuration into the list of
    repositories of every job, rejecting a repository path repeated inside
    one job. */
module Repos {
  import opened Results
  import opened PyValues
  import opened Shell

  /** How many snapshots of each kind `restic forget` keeps. */
  datatype KeepParams = KeepParams(last: int, daily: int, weekly: int, monthly: int, yearly: int)

  /** A `copy_to` destination; its repo value is kept as configured. */
  datatype CopyDestination = CopyDestination(repo: Value, passwordFile: string, keep: KeepParams)

  datatype ResticRepo = ResticRepo(
    repoPath: string,
    passwordFile: string,
    keep: KeepParams,
    copyDestinations: seq<CopyDestination>)

  /** The dataclass constructor with `__post_init__`: an omitted list of
      copy destinations becomes the empty list. */
  function NewResticRepo(path: string, passwordFile: string, keep: KeepParams,
                         copyDestinations: Option<seq<CopyDestination>>): (r: ResticRepo)
    ensures r.repoPath == path && r.passwordFile == passwordFile && r.keep == keep
    ensures copyDestinations.None? ==> r.copyDestinations == []
    ensures copyDestinations.Some? ==> r.copyDestinations == copyDestinations.value
  {
    ResticRepo(path, passwordFile, keep,
      match copyDestinations case Some(c) => c case None => [])
  }

  // ---------------------------------------------------------------------
  // Reading fields of a config table.

  /** `Path(m[key])`: the key must be present and hold a string. */
  function PathField(m: Mapping, key: string): (r: Result<string>)
    ensures r.Ok? <==> Get(m, key).Some? && Get(m, key).value.Str?
    ensures r.Ok? ==> r.value == Get(m, key).value.s
    ensures !HasKey(m, key) ==> r == Err(MissingKey(key))
  {
    match Get(m, key)
    case None => Err(MissingKey(key))
    case Some(v) => if v.Str? then Ok(v.s) else Err(WrongType(key))
  }

  /** `int(m[key])`. */
  function IntField(m: Mapping, key: string): (r: Result<int>)
    ensures !HasKey(m, key) ==> r == Err(MissingKey(key))
    ensures HasKey(m, key) ==> r == PyInt(Get(m, key).value, key)
  {
    match Get(m, key)
    case None => Err(MissingKey(key))
    case Some(v) => PyInt(v, key)
  }

  /** The keys of the five retention counts, in the order they are read. */
  const KeepKeys: seq<string> :=
    ["prune_keep_last", "prune_keep_daily", "prune_keep_weekly", "prune_keep_monthly", "prune_keep_yearly"]

  /** `int(m[key])` for each key in turn; the first failure decides. */
  function IntFields(m: Mapping, keys: seq<string>): (r: Result<seq<int>>)
    ensures r.Ok? ==> |r.value| == |keys|
  {
    if keys == [] then Ok([])
    else
      match IntField(m, keys[0])
      case Err(e) => Err(e)
      case Ok(n) =>
        match IntFields(m, keys[1..])
        case Err(e) => Err(e)
        case Ok(rest) => Ok([n] + rest)
  }

  /** `ResticPruneKeepParams(last=int(m["prune_keep_last"]), ...)`. */
  function ParseKeep(m: Mapping): Result<KeepParams>
  {
    match IntFields(m, KeepKeys)
    case Err(e) => Err(e)
    case Ok(v) => Ok(KeepParams(v[0], v[1], v[2], v[3], v[4]))
  }

  /** Every retention count is read from its own key. */
  lemma ParseKeepFields(m: Mapping)
    ensures ParseKeep(m).Ok? <==> forall i :: 0 <= i < 5 ==> IntField(m, KeepKeys[i]).Ok?
    ensures ParseKeep(m).Ok? ==> ParseKeep(m).value == KeepParams(
      IntField(m, KeepKeys[0]).value, IntField(m, KeepKeys[1]).value, IntField(m, KeepKeys[2]).value,
      IntField(m, KeepKeys[3]).value, IntField(m, KeepKeys[4]).value)
  {
    IntFieldsOk(m, KeepKeys);
  }

  lemma {:induction false} IntFieldsOk(m: Mapping, keys: seq<string>)
    ensures IntFields(m, keys).Ok? <==> forall i :: 0 <= i < |keys| ==> IntField(m, keys[i]).Ok?
    ensures IntFields(m, keys).Ok? ==> forall i :: 0 <= i < |keys| ==> IntFields(m, keys).value[i] == IntField(m, keys[i]).value
  {
    if keys != [] {
      IntFieldsOk(m, keys[1..]);
      assert forall i :: 1 <= i < |keys| ==> keys[1..][i - 1] == keys[i];
    }
  }

  /** Two tables that agree on a list of keys read the same counts from it. */
  lemma {:induction false} IntFieldsAgree(m1: Mapping, m2: Mapping, keys: seq<string>)
    requires forall i :: 0 <= i < |keys| ==> Get(m1, keys[i]) == Get(m2, keys[i])
    ensures IntFields(m1, keys) == IntFields(m2, keys)
  {
    if keys != [] {
      assert forall i :: 1 <= i < |keys| ==> keys[1..][i - 1] == keys[i];
      IntFieldsAgree(m1, m2, keys[1..]);
      assert Get(m1, keys[0]) == Get(m2, keys[0]);
    }
  }

  // ---------------------------------------------------------------------
  // Pruning one repository.

  /** The argv of `prune`: the prune script, the repository, the password
      file and the five keep values, then "--dry-run" when asked. */
  function PruneArgv(scriptPath: string, repo: ResticRepo, dryRun: bool): (c: Argv)
    ensures |c| == if dryRun then 10 else 9
    ensures c[..4] == ["bash", scriptPath, repo.repoPath, repo.passwordFile]
    ensures dryRun <==> c[|c| - 1] == "--dry-run"
  {
    var k := repo.keep;
    var base := ["bash", scriptPath, repo.repoPath, repo.passwordFile,
                 IntToString(k.last), IntToString(k.daily), IntToString(k.weekly),
                 IntToString(k.monthly), IntToString(k.yearly)];
    assert base[8] != "--dry-run" by {
      assert IsDigit(base[8][|base[8]| - 1]);
    }
    if dryRun then base + ["--dry-run"] else base
  }

  /** What a prune command asks for, read back from its argv. */
  datatype PruneRequest = PruneRequest(scriptPath: string, repoPath: string, passwordFile: string,
                                       keep: KeepParams, dryRun: bool)

  function ParsePruneArgv(c: Argv): Option<PruneRequest>
  {
    if (|c| == 9 || (|c| == 10 && c[9] == "--dry-run")) && c[0] == "bash" then
      match (ParseInt(c[4]), ParseInt(c[5]), ParseInt(c[6]), ParseInt(c[7]), ParseInt(c[8]))
      case (Some(l), Some(d), Some(w), Some(m), Some(y)) =>
        Some(PruneRequest(c[1], c[2], c[3], KeepParams(l, d, w, m, y), |c| == 10))
      case _ => None
    else None
  }

  /** The prune argv loses nothing: repository, password file, every keep
      value and the dry-run flag can be read back from it. */
  lemma PruneArgvRoundTrip(scriptPath: string, repo: ResticRepo, dryRun: bool)
    ensures ParsePruneArgv(PruneArgv(scriptPath, repo, dryRun)) ==
      Some(PruneRequest(scriptPath, repo.repoPath, repo.passwordFile, repo.keep, dryRun))
  {
    var k := repo.keep;
    ParseIntRoundTrip(k.last);
    ParseIntRoundTrip(k.daily);
    ParseIntRoundTrip(k.weekly);
    ParseIntRoundTrip(k.monthly);
    ParseIntRoundTrip(k.yearly);
  }

  /** `ResticRepo.prune`: issue the prune command; a failure is reported in
      `ok` and never raised. */
  method Prune(repo: ResticRepo, scriptPath: string, dryRun: bool, host: Host) returns (ok: bool)
    modifies host
    ensures host.log == old(host.log) + [PruneArgv(scriptPath, repo, dryRun)]
    ensures ok == host.succeeds(|old(host.log)|, PruneArgv(scriptPath, repo, dryRun))
  {
    ok := host.Run(PruneArgv(scriptPath, repo, dryRun));
  }

  // ---------------------------------------------------------------------
  // confirm_unique_repos.

  function PathSet(rs: seq<ResticRepo>): set<string>
  {
    set r | r in rs :: r.repoPath
  }

  lemma PathSetSnoc(rs: seq<ResticRepo>, r: ResticRepo)
    ensures PathSet(rs + [r]) == PathSet(rs) + {r.repoPath}
  {
    assert forall x :: x in rs + [r] <==> x in rs || x == r;
  }

  /** The string repo_path of a `repositories` entry, the value the duplicate
      check compares; None when there is no such string. */
  function EntryPath(entry: Value): (r: Option<string>)
    ensures r.Some? <==> entry.Dict? && Get(entry.entries, "repo_path").Some? && Get(entry.entries, "repo_path").value.Str?
    ensures r.Some? ==> Get(entry.entries, "repo_path") == Some(Str(r.value))
  {
    if entry.Dict? then
      match Get<Value>(entry.entries, "repo_path")
      case Some(Str(p)) => Some(p)
      case _ => None
    else None
  }

  /** One `repositories` entry read into a ResticRepo (repo_path, then
      password_file, then the keep values), without the duplicate check. */
  function ParseRepoFields(entry: Value): (r: Result<ResticRepo>)
    ensures r.Ok? ==> EntryPath(entry) == Some(r.value.repoPath)
  {
    if !entry.Dict? then Err(WrongType("repositories"))
    else
      match PathField(entry.entries, "repo_path")
      case Err(e) => Err(e)
      case Ok(p) =>
        match PathField(entry.entries, "password_file")
        case Err(e) => Err(e)
        case Ok(pw) =>
          match ParseKeep(entry.entries)
          case Err(e) => Err(e)
          case Ok(k) => Ok(NewResticRepo(p, pw, k, None))
  }

  /** An entry is read field by field: repo_path and password_file must be
      strings, and each retention count comes from its own key; the entry
      carries no copy destinations. */
  lemma EntryFields(entry: Value)
    ensures ParseRepoFields(entry).Ok? <==>
      entry.Dict? && PathField(entry.entries, "repo_path").Ok? &&
      PathField(entry.entries, "password_file").Ok? &&
      forall i :: 0 <= i < 5 ==> IntField(entry.entries, KeepKeys[i]).Ok?
    ensures ParseRepoFields(entry).Ok? ==>
      var r := ParseRepoFields(entry).value;
      && Get(entry.entries, "repo_path") == Some(Str(r.repoPath))
      && Get(entry.entries, "password_file") == Some(Str(r.passwordFile))
      && r.keep == KeepParams(
           IntField(entry.entries, KeepKeys[0]).value, IntField(entry.entries, KeepKeys[1]).value,
           IntField(entry.entries, KeepKeys[2]).value, IntField(entry.entries, KeepKeys[3]).value,
           IntField(entry.entries, KeepKeys[4]).value)
      && r.copyDestinations == []
  {
    if entry.Dict? {
      ParseKeepFields(entry.entries);
    }
  }

  /** One loop step of confirm_unique_repos: an entry whose path was already
      seen in this job is rejected before its other fields matter. */
  function Admit(category: string, job: string, path: Option<string>, parsed: Result<ResticRepo>,
                 seen: set<string>): (r: Result<ResticRepo>)
    ensures path.Some? && path.value in seen ==> r == Err(DuplicateRepo(category, job, path.value))
    ensures (path.None? || path.value !in seen) ==> r == parsed
  {
    if path.Some? && path.value in seen then Err(DuplicateRepo(category, job, path.value)) else parsed
  }

  /** The loop over a job's entries, given each entry's path and parsed
      fields; the first rejected entry decides the error. */
  function CheckEntries(category: string, job: string, paths: seq<Option<string>>,
                        parsed: seq<Result<ResticRepo>>): Result<seq<ResticRepo>>
    requires |paths| == |parsed|
  {
    if paths == [] then Ok([])
    else
      var n := |paths| - 1;
      match CheckEntries(category, job, paths[..n], parsed[..n])
      case Err(e) => Err(e)
      case Ok(done) =>
        match Admit(category, job, paths[n], parsed[n], PathSet(done))
        case Err(e) => Err(e)
        case Ok(r) => Ok(done + [r])
  }

  /** Each entry's path, in order. */
  function EntryPaths(es: seq<Value>): (r: seq<Option<string>>)
    ensures |r| == |es|
  {
    if es == [] then [] else EntryPaths(es[..|es| - 1]) + [EntryPath(es[|es| - 1])]
  }

  /** Each entry's parsed fields, in order. */
  function ParsedEntries(es: seq<Value>): (r: seq<Result<ResticRepo>>)
    ensures |r| == |es|
  {
    if es == [] then [] else ParsedEntries(es[..|es| - 1]) + [ParseRepoFields(es[|es| - 1])]
  }

  lemma {:induction false} EntriesAt(es: seq<Value>, i: nat)
    requires i < |es|
    ensures EntryPaths(es)[i] == EntryPath(es[i]) && ParsedEntries(es)[i] == ParseRepoFields(es[i])
  {
    if i < |es| - 1 {
      EntriesAt(es[..|es| - 1], i);
    }
  }

  lemma {:induction false} EntriesPrefix(es: seq<Value>, j: nat)
    requires j <= |es|
    ensures EntryPaths(es[..j]) == EntryPaths(es)[..j] && ParsedEntries(es[..j]) == ParsedEntries(es)[..j]
    decreases |es| - j
  {
    if j < |es| {
      EntriesPrefix(es[..|es| - 1], j);
      assert es[..|es| - 1][..j] == es[..j];
    } else {
      assert es[..j] == es;
    }
  }

  /** The repositories of a new-format job, in list order. */
  function CollectRepos(category: string, job: string, entries: seq<Value>): Result<seq<ResticRepo>>
  {
    CheckEntries(category, job, EntryPaths(entries), ParsedEntries(entries))
  }

  /** The single repository of a legacy job table. */
  function LegacyRepo(cfg: Mapping): Result<ResticRepo>
  {
    match PathField(cfg, "restic_repo")
    case Err(e) => Err(e)
    case Ok(p) =>
      match PathField(cfg, "restic_password_file")
      case Err(e) => Err(e)
      case Ok(pw) =>
        match ParseKeep(cfg)
        case Err(e) => Err(e)
        case Ok(k) => Ok(NewResticRepo(p, pw, k, None))
  }

  /** The repositories of one job: the `repositories` list when the key is
      present, else the legacy single repository. */
  function JobRepos(category: string, job: string, cfg: Mapping): Result<seq<ResticRepo>>
  {
    if HasKey(cfg, "repositories") then
      match Iter(Get(cfg, "repositories").value)
      case None => Err(WrongType("repositories"))
      case Some(entries) => CollectRepos(category, job, entries)
    else
      match LegacyRepo(cfg)
      case Err(e) => Err(e)
      case Ok(r) => Ok([r])
  }

  /** One entry of the dict `confirm_unique_repos` returns. */
  datatype JobRepoList = JobRepoList(category: string, name: string, repos: seq<ResticRepo>)

  /** A job of the configuration: category, job name, job table. */
  datatype JobRef = JobRef(category: string, name: string, cfg: Mapping)

  function CategoryJobs(category: string, jobs: seq<(string, Mapping)>): (r: seq<JobRef>)
    ensures |r| == |jobs| && forall i :: 0 <= i < |jobs| ==> r[i] == JobRef(category, jobs[i].0, jobs[i].1)
  {
    seq(|jobs|, i requires 0 <= i < |jobs| => JobRef(category, jobs[i].0, jobs[i].1))
  }

  /** Every job of the configuration, category by category, in dict order. */
  function AllJobs(config: Config): seq<JobRef>
  {
    if config == [] then []
    else AllJobs(config[..|config| - 1]) + CategoryJobs(config[|config| - 1].0, config[|config| - 1].1)
  }

  /** A job's entry in the result, or the error that stops the loop there. */
  function JobEntry(j: JobRef): Result<JobRepoList>
  {
    match JobRepos(j.category, j.name, j.cfg)
    case Err(e) => Err(e)
    case Ok(rs) => Ok(JobRepoList(j.category, j.name, rs))
  }

  function JobEntries(jobs: seq<JobRef>): (r: seq<Result<JobRepoList>>)
    ensures |r| == |jobs| && forall i :: 0 <= i < |jobs| ==> r[i] == JobEntry(jobs[i])
  {
    seq(|jobs|, i requires 0 <= i < |jobs| => JobEntry(jobs[i]))
  }

  /** The values of a list of results taken in order; the first error stops
      the collection and is the outcome. */
  function Gather<T>(rs: seq<Result<T>>): Result<seq<T>>
  {
    if rs == [] then Ok([])
    else
      match Gather(rs[..|rs| - 1])
      case Err(e) => Err(e)
      case Ok(done) =>
        match rs[|rs| - 1]
        case Err(e) => Err(e)
        case Ok(x) => Ok(done + [x])
  }

  lemma {:induction false} GatherOk<T>(rs: seq<Result<T>>)
    ensures Gather(rs).Ok? <==> forall i :: 0 <= i < |rs| ==> rs[i].Ok?
    ensures Gather(rs).Ok? ==> (|Gather(rs).value| == |rs| &&
      forall i :: 0 <= i < |rs| ==> Gather(rs).value[i] == rs[i].value)
  {
    if rs != [] {
      var pre := rs[..|rs| - 1];
      GatherOk(pre);
      assert forall i :: 0 <= i < |pre| ==> pre[i] == rs[i];
    }
  }

  lemma {:induction false} GatherErrSticks<T>(rs: seq<Result<T>>, i: nat)
    requires i <= |rs| && Gather(rs[..i]).Err?
    ensures Gather(rs) == Gather(rs[..i])
    decreases |rs| - i
  {
    if i < |rs| {
      assert rs[..i + 1][..i] == rs[..i];
      GatherErrSticks(rs, i + 1);
    } else {
      assert rs[..i] == rs;
    }
  }

  /** The result of confirm_unique_repos over a list of jobs. */
  function ReposOfJobs(jobs: seq<JobRef>): Result<seq<JobRepoList>>
  {
    Gather(JobEntries(jobs))
  }

  function UniqueRepos(config: Config): Result<seq<JobRepoList>>
  {
    ReposOfJobs(AllJobs(config))
  }

  // ---------------------------------------------------------------------
  // The loops.

  lemma {:induction false} CheckErrSticks(category: string, job: string, paths: seq<Option<string>>,
                                          parsed: seq<Result<ResticRepo>>, i: nat)
    requires |paths| == |parsed| && i <= |paths|
    requires CheckEntries(category, job, paths[..i], parsed[..i]).Err?
    ensures CheckEntries(category, job, paths, parsed) == CheckEntries(category, job, paths[..i], parsed[..i])
    decreases |paths| - i
  {
    if i < |paths| {
      assert paths[..i + 1][..i] == paths[..i] && parsed[..i + 1][..i] == parsed[..i];
      CheckErrSticks(category, job, paths, parsed, i + 1);
    } else {
      TakeAll(paths);
    TakeAll(parsed);
    }
  }

  /** The loop over one job's `repositories` list, with the set of paths
      seen so far in the job. */
  method CollectEntries(category: string, job: string, entries: seq<Value>) returns (r: Result<seq<ResticRepo>>)
    ensures r == CollectRepos(category, job, entries)
  {
    ghost var paths := EntryPaths(entries);
    ghost var parsed := ParsedEntries(entries);
    var repos: seq<ResticRepo> := [];
    var seen: set<string> := {};
    var i := 0;
    while i < |entries|
      invariant 0 <= i <= |entries|
      invariant CheckEntries(category, job, paths[..i], parsed[..i]) == Ok(repos)
      invariant seen == PathSet(repos)
    {
      TakeTake(paths, i, i + 1);
      TakeTake(parsed, i, i + 1);
      EntriesAt(entries, i);
      var path := EntryPath(entries[i]);
      if path.Some? && path.value in seen {
        CheckErrSticks(category, job, paths, parsed, i + 1);
        return Err(DuplicateRepo(category, job, path.value));
      }
      var repo := ParseRepoFields(entries[i]);
      if repo.Err? {
        CheckErrSticks(category, job, paths, parsed, i + 1);
        return Err(repo.error);
      }
      PathSetSnoc(repos, repo.value);
      seen := seen + {repo.value.repoPath};
      repos := repos + [repo.value];
      i := i + 1;
    }
    TakeAll(paths);
    TakeAll(parsed);
    r := Ok(repos);
  }

  /** The body of the job loop of confirm_unique_repos: either format. */
  method CollectJobRepos(category: string, job: string, cfg: Mapping) returns (r: Result<seq<ResticRepo>>)
    ensures r == JobRepos(category, job, cfg)
  {
    if !HasKey(cfg, "repositories") {
      var legacy := LegacyRepo(cfg);
      r := if legacy.Ok? then Ok([legacy.value]) else Err(legacy.error);
    } else {
      var listed := Iter(Get(cfg, "repositories").value);
      if listed.None? {
        r := Err(WrongType("repositories"));
      } else {
        r := CollectEntries(category, job, listed.value);
      }
    }
  }

  lemma ReposErrSticks(jobs: seq<JobRef>, i: nat)
    requires i <= |jobs| && ReposOfJobs(jobs[..i]).Err?
    ensures ReposOfJobs(jobs) == ReposOfJobs(jobs[..i])
  {
    assert JobEntries(jobs)[..i] == JobEntries(jobs[..i]);
    GatherErrSticks(JobEntries(jobs), i);
  }

  lemma AllJobsStep(config: Config, i: nat)
    requires i < |config|
    ensures AllJobs(config[..i + 1]) == AllJobs(config[..i]) + CategoryJobs(config[i].0, config[i].1)
  {
    assert config[..i + 1][..i] == config[..i];
  }

  /** The jobs of a prefix of the configuration are a prefix of its jobs. */
  lemma {:induction false} AllJobsPrefix(config: Config, i: nat)
    requires i <= |config|
    ensures |AllJobs(config[..i])| <= |AllJobs(config)|
    ensures AllJobs(config)[..|AllJobs(config[..i])|] == AllJobs(config[..i])
    decreases |config| - i
  {
    if i < |config| {
      AllJobsStep(config, i);
      AllJobsPrefix(config, i + 1);
    } else {
      assert config[..i] == config;
    }
  }

  /** The jobs visited by the nested loops after j jobs of category c. */
  function Visited(config: Config, c: nat, j: nat): seq<JobRef>
    requires c < |config| && j <= |config[c].1|
  {
    AllJobs(config[..c]) + CategoryJobs(config[c].0, config[c].1[..j])
  }

  lemma VisitedStep(config: Config, c: nat, j: nat)
    requires c < |config| && j < |config[c].1|
    ensures Visited(config, c, j + 1) ==
      Visited(config, c, j) + [JobRef(config[c].0, config[c].1[j].0, config[c].1[j].1)]
    ensures JobEntries(Visited(config, c, j + 1)) ==
      JobEntries(Visited(config, c, j)) + [JobEntry(JobRef(config[c].0, config[c].1[j].0, config[c].1[j].1))]
  {
    assert config[c].1[..j + 1] == config[c].1[..j] + [config[c].1[j]];
  }

  lemma VisitedPrefix(config: Config, c: nat, j: nat)
    requires c < |config| && j <= |config[c].1|
    ensures |Visited(config, c, j)| <= |AllJobs(config)|
    ensures AllJobs(config)[..|Visited(config, c, j)|] == Visited(config, c, j)
  {
    AllJobsStep(config, c);
    AllJobsPrefix(config, c + 1);
    var jobs := config[c].1;
    assert jobs == jobs[..j] + jobs[j..];
    var all := AllJobs(config[..c + 1]);
    assert all == Visited(config, c, j) + CategoryJobs(config[c].0, jobs[j..]);
  }

  /** Once the nested loops hit an error, that error is the result. */
  lemma VisitedErr(config: Config, c: nat, j: nat)
    requires c < |config| && j <= |config[c].1| && ReposOfJobs(Visited(config, c, j)).Err?
    ensures UniqueRepos(config) == ReposOfJobs(Visited(config, c, j))
  {
    VisitedPrefix(config, c, j);
    ReposErrSticks(AllJobs(config), |Visited(config, c, j)|);
  }

  /** `confirm_unique_repos`: the loop over categories and, inside it, over
      the jobs of each category. */
  method ConfirmUniqueRepos(config: Config) returns (r: Result<seq<JobRepoList>>)
    ensures r == UniqueRepos(config)
  {
    var out: seq<JobRepoList> := [];
    var c := 0;
    while c < |config|
      invariant 0 <= c <= |config|
      invariant ReposOfJobs(AllJobs(config[..c])) == Ok(out)
    {
      var category := config[c].0;
      var jobs := config[c].1;
      assert Visited(config, c, 0) == AllJobs(config[..c]);
      var j := 0;
      while j < |jobs|
        invariant 0 <= j <= |jobs|
        invariant ReposOfJobs(Visited(config, c, j)) == Ok(out)
      {
        VisitedStep(config, c, j);
        var v := JobEntries(Visited(config, c, j + 1));
        assert v[..|v| - 1] == JobEntries(Visited(config, c, j));
        var repos := CollectJobRepos(category, jobs[j].0, jobs[j].1);
        if repos.Err? {
          VisitedErr(config, c, j + 1);
          return Err(repos.error);
        }
        out := out + [JobRepoList(category, jobs[j].0, repos.value)];
        j := j + 1;
      }
      AllJobsStep(config, c);
      assert jobs[..j] == jobs;
      c := c + 1;
    }
    assert config[..c] == config;
    r := Ok(out);
  }

  // ---------------------------------------------------------------------
  // What confirm_unique_repos promises.

  /** Each parsed entry's path is the path the duplicate check compares. */
  predicate Consistent(paths: seq<Option<string>>, parsed: seq<Result<ResticRepo>>)
  {
    |paths| == |parsed| &&
    forall i :: 0 <= i < |parsed| && parsed[i].Ok? ==> paths[i] == Some(parsed[i].value.repoPath)
  }

  lemma ConsistentEntries(es: seq<Value>)
    ensures Consistent(EntryPaths(es), ParsedEntries(es))
  {
    forall i | 0 <= i < |es| {
      EntriesAt(es, i);
    }
  }

  lemma {:induction false} CheckEntriesOk(category: string, job: string, paths: seq<Option<string>>,
                                          parsed: seq<Result<ResticRepo>>)
    requires Consistent(paths, parsed) && CheckEntries(category, job, paths, parsed).Ok?
    ensures var rs := CheckEntries(category, job, paths, parsed).value;
      |rs| == |parsed| &&
      (forall i :: 0 <= i < |parsed| ==> parsed[i] == Ok(rs[i])) &&
      (forall i, j :: 0 <= i < j < |rs| ==> rs[i].repoPath != rs[j].repoPath)
  {
    if paths != [] {
      var n := |paths| - 1;
      assert forall i :: 0 <= i < n ==> paths[..n][i] == paths[i] && parsed[..n][i] == parsed[i];
      CheckEntriesOk(category, job, paths[..n], parsed[..n]);
      var done := CheckEntries(category, job, paths[..n], parsed[..n]).value;
      var r := Admit(category, job, paths[n], parsed[n], PathSet(done)).value;
      assert parsed[n] == Ok(r);
      assert r.repoPath !in PathSet(done);
      forall i | 0 <= i < |done| ensures done[i].repoPath != r.repoPath {
        assert done[i] in done;
      }
    }
  }

  lemma {:induction false} CheckEntriesAccepts(category: string, job: string, paths: seq<Option<string>>,
                                               parsed: seq<Result<ResticRepo>>)
    requires Consistent(paths, parsed)
    requires forall i :: 0 <= i < |parsed| ==> parsed[i].Ok?
    requires forall i, j :: 0 <= i < j < |parsed| ==> parsed[i].value.repoPath != parsed[j].value.repoPath
    ensures CheckEntries(category, job, paths, parsed).Ok?
  {
    if paths != [] {
      var n := |paths| - 1;
      assert forall i :: 0 <= i < n ==> paths[..n][i] == paths[i] && parsed[..n][i] == parsed[i];
      CheckEntriesAccepts(category, job, paths[..n], parsed[..n]);
      CheckEntriesOk(category, job, paths[..n], parsed[..n]);
      var done := CheckEntries(category, job, paths[..n], parsed[..n]).value;
      assert parsed[n].value.repoPath !in PathSet(done) by {
        forall x | x in done ensures x.repoPath != parsed[n].value.repoPath {
          var k :| 0 <= k < |done| && done[k] == x;
          assert parsed[k] == Ok(x);
        }
      }
    }
  }

  /** An accepted job has one repository per `repositories` entry, in order,
      each read from its entry, and no two with the same path. */
  lemma CollectReposOk(category: string, job: string, es: seq<Value>)
    requires CollectRepos(category, job, es).Ok?
    ensures var rs := CollectRepos(category, job, es).value;
      |rs| == |es| &&
      (forall i :: 0 <= i < |es| ==> ParseRepoFields(es[i]) == Ok(rs[i])) &&
      (forall i, j :: 0 <= i < j < |rs| ==> rs[i].repoPath != rs[j].repoPath)
  {
    ConsistentEntries(es);
    CheckEntriesOk(category, job, EntryPaths(es), ParsedEntries(es));
    forall i | 0 <= i < |es| {
      EntriesAt(es, i);
    }
  }

  /** Conversely, a job whose entries all parse and whose paths are distinct
      is accepted. */
  lemma CollectReposAccepts(category: string, job: string, es: seq<Value>)
    requires forall i :: 0 <= i < |es| ==> ParseRepoFields(es[i]).Ok?
    requires forall i, j :: 0 <= i < j < |es| ==>
      ParseRepoFields(es[i]).value.repoPath != ParseRepoFields(es[j]).value.repoPath
    ensures CollectRepos(category, job, es).Ok?
  {
    ConsistentEntries(es);
    forall i | 0 <= i < |es| {
      EntriesAt(es, i);
    }
    CheckEntriesAccepts(category, job, EntryPaths(es), ParsedEntries(es));
  }

  /** Two entries of one job with the same string repo_path make the job fail,
      whatever their other fields; when every earlier entry is fine the
      failure is the duplicate error naming that path. */
  lemma DuplicateRejected(category: string, job: string, es: seq<Value>, i: nat, j: nat, p: string)
    requires i < j < |es| && es[i].Dict? && es[j].Dict?
    requires Get(es[i].entries, "repo_path") == Some(Str(p)) && Get(es[j].entries, "repo_path") == Some(Str(p))
    ensures CollectRepos(category, job, es).Err?
    ensures CollectRepos(category, job, es[..j]).Ok? ==>
      CollectRepos(category, job, es) == Err(DuplicateRepo(category, job, p))
  {
    ConsistentEntries(es);
    EntriesAt(es, i);
    EntriesAt(es, j);
    EntriesPrefix(es, j);
    CheckEntriesDuplicate(category, job, EntryPaths(es), ParsedEntries(es), i, j, p);
  }

  lemma CheckEntriesDuplicate(category: string, job: string, paths: seq<Option<string>>,
                              parsed: seq<Result<ResticRepo>>, i: nat, j: nat, p: string)
    requires Consistent(paths, parsed) && i < j < |paths| && paths[i] == Some(p) && paths[j] == Some(p)
    ensures CheckEntries(category, job, paths, parsed).Err?
    ensures CheckEntries(category, job, paths[..j], parsed[..j]).Ok? ==>
      CheckEntries(category, job, paths, parsed) == Err(DuplicateRepo(category, job, p))
  {
    if CheckEntries(category, job, paths, parsed).Ok? {
      CheckEntriesOk(category, job, paths, parsed);
      assert false;
    }
    if CheckEntries(category, job, paths[..j], parsed[..j]).Ok? {
      assert Consistent(paths[..j], parsed[..j]);
      CheckEntriesOk(category, job, paths[..j], parsed[..j]);
      var done := CheckEntries(category, job, paths[..j], parsed[..j]).value;
      assert parsed[..j][i] == Ok(done[i]);
      assert done[i] in done;
      assert paths[..j + 1][..j] == paths[..j] && parsed[..j + 1][..j] == parsed[..j];
      assert CheckEntries(category, job, paths[..j + 1], parsed[..j + 1]) == Err(DuplicateRepo(category, job, p));
      CheckErrSticks(category, job, paths, parsed, j + 1);
    }
  }

  /** The per-job results, job by job: the configuration is accepted exactly
      when every job is, and then there is one entry per job, in order, with
      that job's own repositories. No check spans two jobs, so one path may
      serve several jobs. */
  lemma ReposOfJobsOk(jobs: seq<JobRef>)
    ensures ReposOfJobs(jobs).Ok? <==>
      forall i :: 0 <= i < |jobs| ==> JobRepos(jobs[i].category, jobs[i].name, jobs[i].cfg).Ok?
    ensures ReposOfJobs(jobs).Ok? ==> (|ReposOfJobs(jobs).value| == |jobs| &&
      forall i :: 0 <= i < |jobs| ==>
        ReposOfJobs(jobs).value[i] ==
        JobRepoList(jobs[i].category, jobs[i].name, JobRepos(jobs[i].category, jobs[i].name, jobs[i].cfg).value))
  {
    GatherOk(JobEntries(jobs));
  }

  /** Every job of every category is visited, and nothing else. */
  lemma {:induction false} AllJobsMembers(config: Config)
    ensures forall c, j :: 0 <= c < |config| && 0 <= j < |config[c].1| ==>
      JobRef(config[c].0, config[c].1[j].0, config[c].1[j].1) in AllJobs(config)
    ensures forall x :: x in AllJobs(config) ==>
      (exists c, j :: 0 <= c < |config| && 0 <= j < |config[c].1| &&
         x == JobRef(config[c].0, config[c].1[j].0, config[c].1[j].1))
  {
    if config != [] {
      var n := |config| - 1;
      var pre := config[..n];
      AllJobsMembers(pre);
      assert forall c :: 0 <= c < n ==> pre[c] == config[c];
      var last := CategoryJobs(config[n].0, config[n].1);
      assert AllJobs(config) == AllJobs(pre) + last;
      forall x | x in AllJobs(config)
        ensures exists c, j :: (0 <= c < |config| && 0 <= j < |config[c].1| &&
                                x == JobRef(config[c].0, config[c].1[j].0, config[c].1[j].1))
      {
        if x in last {
          var j :| 0 <= j < |last| && last[j] == x;
          assert x == JobRef(config[n].0, config[n].1[j].0, config[n].1[j].1);
        }
      }
      forall c, j | 0 <= c < |config| && 0 <= j < |config[c].1|
        ensures JobRef(config[c].0, config[c].1[j].0, config[c].1[j].1) in AllJobs(config)
      {
        if c == n {
          assert last[j] == JobRef(config[c].0, config[c].1[j].0, config[c].1[j].1);
        }
      }
    }
  }

  /** A parsed configuration: no category twice, no job twice in a category. */
  predicate WellFormedConfig(config: Config)
  {
    UniqueKeys(config) && forall c :: 0 <= c < |config| ==> UniqueKeys(config[c].1)
  }

  predicate DistinctJobKeys(js: seq<JobRef>)
  {
    forall a, b :: 0 <= a < b < |js| ==> (js[a].category, js[a].name) != (js[b].category, js[b].name)
  }

  /** In a well-formed configuration the (category, job name) keys of the
      result are distinct, so it is the dict confirm_unique_repos returns. */
  lemma {:induction false} JobKeysDistinct(config: Config)
    requires WellFormedConfig(config)
    ensures DistinctJobKeys(AllJobs(config))
  {
    if config != [] {
      var n := |config| - 1;
      var pre := config[..n];
      assert forall c :: 0 <= c < n ==> pre[c] == config[c];
      assert WellFormedConfig(pre);
      JobKeysDistinct(pre);
      AllJobsMembers(pre);
      var front := AllJobs(pre);
      var last := CategoryJobs(config[n].0, config[n].1);
      var js := front + last;
      assert AllJobs(config) == js;
      forall a, b | 0 <= a < b < |js| ensures (js[a].category, js[a].name) != (js[b].category, js[b].name) {
        if a >= |front| {
          var x, y := a - |front|, b - |front|;
          assert js[a] == last[x] && js[b] == last[y];
          assert last[x].name == config[n].1[x].0 && last[y].name == config[n].1[y].0;
          assert UniqueKeys(config[n].1);
          assert js[a].name != js[b].name;
          assert (js[a].category, js[a].name) != (js[b].category, js[b].name);
        } else if b >= |front| {
          assert js[a] in front;
          var c, j :| 0 <= c < |pre| && 0 <= j < |pre[c].1| &&
            js[a] == JobRef(pre[c].0, pre[c].1[j].0, pre[c].1[j].1);
          assert js[a].category == config[c].0 != config[n].0;
          assert js[b] == last[b - |front|] && last[b - |front|].category == config[n].0;
          assert js[a].category != js[b].category;
          assert (js[a].category, js[a].name) != (js[b].category, js[b].name);
        } else {
          assert js[a] == front[a] && js[b] == front[b];
          assert (js[a].category, js[a].name) != (js[b].category, js[b].name);
        }
      }
    }
  }

  /** The table a legacy job would have as its one `repositories` entry. */
  function LegacyEntry(cfg: Mapping, p: string, pw: string): Mapping
  {
    [("repo_path", Str(p)), ("password_file", Str(pw))] + cfg
  }

  lemma LegacyEntryKeep(cfg: Mapping, p: string, pw: string)
    ensures ParseKeep(LegacyEntry(cfg, p, pw)) == ParseKeep(cfg)
  {
    var a := [("repo_path", Str(p)), ("password_file", Str(pw))];
    var m := LegacyEntry(cfg, p, pw);
    forall i | 0 <= i < |KeepKeys| ensures Get(m, KeepKeys[i]) == Get(cfg, KeepKeys[i]) {
      GetSkip(a, cfg, KeepKeys[i]);
    }
    IntFieldsAgree(m, cfg, KeepKeys);
  }

  lemma LegacyEntryPaths(cfg: Mapping, p: string, pw: string)
    ensures PathField(LegacyEntry(cfg, p, pw), "repo_path") == Ok(p)
    ensures PathField(LegacyEntry(cfg, p, pw), "password_file") == Ok(pw)
  {
    var m := LegacyEntry(cfg, p, pw);
    assert m[0] == ("repo_path", Str(p));
    assert Get(m, "repo_path") == Some(Str(p));
    assert m[1..][0] == ("password_file", Str(pw));
    assert Get(m, "password_file") == Get(m[1..], "password_file") == Some(Str(pw));
  }

  lemma LegacyEntryFields(cfg: Mapping, p: string, pw: string)
    requires Get(cfg, "restic_repo") == Some(Str(p)) && Get(cfg, "restic_password_file") == Some(Str(pw))
    ensures ParseRepoFields(Dict(LegacyEntry(cfg, p, pw))) == LegacyRepo(cfg)
  {
    LegacyEntryKeep(cfg, p, pw);
    LegacyEntryPaths(cfg, p, pw);
  }

  lemma CollectSingle(category: string, job: string, e: Value)
    ensures CollectRepos(category, job, [e]) ==
      match ParseRepoFields(e) case Ok(r) => Ok([r]) case Err(x) => Err(x)
  {
    assert [e][..0] == [];
    assert EntryPaths([e]) == [EntryPath(e)] && ParsedEntries([e]) == [ParseRepoFields(e)];
    var paths, parsed := [EntryPath(e)], [ParseRepoFields(e)];
    assert paths[..0] == [] && parsed[..0] == [];
    assert Admit(category, job, paths[0], parsed[0], PathSet([])) == ParseRepoFields(e);
    assert CheckEntries(category, job, paths[..0], parsed[..0]) == Ok([]);
    assert CollectRepos(category, job, [e]) == CheckEntries(category, job, paths, parsed);
    if ParseRepoFields(e).Ok? {
      assert [] + [ParseRepoFields(e).value] == [ParseRepoFields(e).value];
      assert CheckEntries(category, job, paths, parsed) == Ok([ParseRepoFields(e).value]);
    }
  }

  /** A legacy job means the same as a `repositories` list holding one entry
      whose repo_path and password_file are its restic_repo and
      restic_password_file. */
  lemma LegacyIsSingleEntry(category: string, job: string, cfg: Mapping, p: string, pw: string)
    requires !HasKey(cfg, "repositories")
    requires Get(cfg, "restic_repo") == Some(Str(p)) && Get(cfg, "restic_password_file") == Some(Str(pw))
    ensures JobRepos(category, job, cfg) == CollectRepos(category, job, [Dict(LegacyEntry(cfg, p, pw))])
  {
    LegacyEntryFields(cfg, p, pw);
    CollectSingle(category, job, Dict(LegacyEntry(cfg, p, pw)));
  }
}
