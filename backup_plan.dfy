/** The backup plan: a loaded configuration turned into the list of backup
    jobs, each with its script, its token/key pairs, its job table and the
    repositories (with their copy destinations) it backs up to. */
module Plans {
  import opened Results
  import opened PyValues
  import opened Dispatch
  import opened Repos
  import opened BackupJobs

  // ---------------------------------------------------------------------
  // Reading a job table.

  /** One `copy_to` entry: the repo value as configured, `Path` of the
      password file, then the five retention counts. */
  function CopyDestinationOf(v: Value): Result<CopyDestination>
  {
    if !v.Dict? then Err(WrongType("copy_to"))
    else
      match Get(v.entries, "repo")
      case None => Err(MissingKey("repo"))
      case Some(repo) =>
        match PathField(v.entries, "password_file")
        case Err(e) => Err(e)
        case Ok(pw) =>
          match ParseKeep(v.entries)
          case Err(e) => Err(e)
          case Ok(k) => Ok(CopyDestination(repo, pw, k))
  }

  function CopyResults(cs: seq<Value>): (r: seq<Result<CopyDestination>>)
    ensures |r| == |cs| && forall i :: 0 <= i < |cs| ==> r[i] == CopyDestinationOf(cs[i])
  {
    seq(|cs|, i requires 0 <= i < |cs| => CopyDestinationOf(cs[i]))
  }

  /** The job-level copy destinations: none without `copy_to`, else one per
      element of it, in order; the first bad element is the error. */
  function CopyDestinations(cfg: Mapping): Result<seq<CopyDestination>>
  {
    if !HasKey(cfg, "copy_to") then Ok([])
    else
      match Iter(Get(cfg, "copy_to").value)
      case None => Err(WrongType("copy_to"))
      case Some(cs) => Gather(CopyResults(cs))
  }

  /** One `repositories` entry read into a repository that carries the given
      copy destinations. */
  function RepoOf(entry: Value, copies: seq<CopyDestination>): Result<ResticRepo>
  {
    match ParseRepoFields(entry)
    case Err(e) => Err(e)
    case Ok(r) => Ok(NewResticRepo(r.repoPath, r.passwordFile, r.keep, Some(copies)))
  }

  function RepoResults(entries: seq<Value>, copies: seq<CopyDestination>): (r: seq<Result<ResticRepo>>)
    ensures |r| == |entries| && forall i :: 0 <= i < |entries| ==> r[i] == RepoOf(entries[i], copies)
  {
    seq(|entries|, i requires 0 <= i < |entries| => RepoOf(entries[i], copies))
  }

  /** The loop over the `repositories` entries of a job table. */
  function EntriesRepos(cfg: Mapping, entries: seq<Value>): Result<seq<ResticRepo>>
  {
    if entries == [] then Ok([])
    else
      match CopyDestinations(cfg)
      case Err(e) => Err(e)
      case Ok(copies) => Gather(RepoResults(entries, copies))
  }

  /** The repositories `create_backup_job` builds for a job table. The
      `copy_to` list is read inside the loop over `repositories`, before the
      entry's own fields, so it is never read for an empty list. Unlike
      confirm_unique_repos, no duplicate check is made. */
  function PlanRepos(cfg: Mapping): Result<seq<ResticRepo>>
  {
    if HasKey(cfg, "repositories") then
      match Iter(Get(cfg, "repositories").value)
      case None => Err(WrongType("repositories"))
      case Some(entries) => EntriesRepos(cfg, entries)
    else
      match LegacyRepo(cfg)
      case Err(e) => Err(e)
      case Ok(r) => Ok([r])
  }

  /** `create_backup_job(category, name)` on a configuration. */
  function CreateJob(config: Config, dryRun: bool, category: string, name: string): Result<BackupJob>
  {
    match ResourceDispatch(category)
    case None => Err(InvalidCategory(category))
    case Some(d) =>
      match Get(config, category)
      case None => Err(MissingKey(category))
      case Some(jobs) =>
        match Get(jobs, name)
        case None => Err(MissingKey(name))
        case Some(cfg) =>
          match PlanRepos(cfg)
          case Err(e) => Err(e)
          case Ok(rs) => Ok(BackupJob(d.scriptName, FromTokenKeyMap(d.tokenKeyMap), cfg, name, category, rs, dryRun))
  }

  function JobResults(config: Config, dryRun: bool, js: seq<JobRef>): (r: seq<Result<BackupJob>>)
    ensures |r| == |js| && forall i :: 0 <= i < |js| ==> r[i] == CreateJob(config, dryRun, js[i].category, js[i].name)
  {
    seq(|js|, i requires 0 <= i < |js| => CreateJob(config, dryRun, js[i].category, js[i].name))
  }

  /** The `backup_jobs` property: a job per (category, name), in order. */
  function AllBackupJobs(config: Config, dryRun: bool): Result<seq<BackupJob>>
  {
    Gather(JobResults(config, dryRun, AllJobs(config)))
  }

  // ---------------------------------------------------------------------
  // The class and its loops.

  lemma GatherSnoc<T>(rs: seq<Result<T>>, i: nat)
    requires i < |rs|
    ensures Gather(rs[..i + 1]) ==
      match Gather(rs[..i])
      case Err(e) => Err(e)
      case Ok(done) => (match rs[i] case Err(e) => Err(e) case Ok(x) => Ok(done + [x]))
  {
    assert rs[..i + 1][..i] == rs[..i];
  }

  /** The `copy_to` loop inside the `repositories` loop. */
  method ReadCopyDestinations(cfg: Mapping) returns (r: Result<seq<CopyDestination>>)
    ensures r == CopyDestinations(cfg)
  {
    if !HasKey(cfg, "copy_to") {
      return Ok([]);
    }
    var listed := Iter(Get(cfg, "copy_to").value);
    if listed.None? {
      return Err(WrongType("copy_to"));
    }
    var cs := listed.value;
    ghost var rs := CopyResults(cs);
    var copies: seq<CopyDestination> := [];
    var i := 0;
    while i < |cs|
      invariant 0 <= i <= |cs|
      invariant Gather(rs[..i]) == Ok(copies)
    {
      GatherSnoc(rs, i);
      var d := CopyDestinationOf(cs[i]);
      if d.Err? {
        GatherErrSticks(rs, i + 1);
        return Err(d.error);
      }
      copies := copies + [d.value];
      i := i + 1;
    }
    assert rs[..i] == rs;
    r := Ok(copies);
  }

  /** The `repositories` loop, re-reading `copy_to` for every entry. */
  method ReadEntries(cfg: Mapping, entries: seq<Value>) returns (r: Result<seq<ResticRepo>>)
    ensures r == EntriesRepos(cfg, entries)
  {
    ghost var expected := CopyDestinations(cfg);
    var repositories: seq<ResticRepo> := [];
    var i := 0;
    while i < |entries|
      invariant 0 <= i <= |entries|
      invariant i == 0 ==> repositories == []
      invariant i > 0 ==> expected.Ok? && Gather(RepoResults(entries, expected.value)[..i]) == Ok(repositories)
    {
      var copies := ReadCopyDestinations(cfg);
      if copies.Err? {
        return Err(copies.error);
      }
      assert i == 0 ==> RepoResults(entries, copies.value)[..i] == [];
      EntriesStep(entries, copies.value, i, repositories);
      var repo := RepoOf(entries[i], copies.value);
      if repo.Err? {
        return Err(repo.error);
      }
      repositories := repositories + [repo.value];
      i := i + 1;
    }
    if i > 0 {
      assert RepoResults(entries, expected.value)[..i] == RepoResults(entries, expected.value);
    }
    r := Ok(repositories);
  }

  lemma EntriesStep(entries: seq<Value>, copies: seq<CopyDestination>, i: nat, done: seq<ResticRepo>)
    requires i < |entries| && Gather(RepoResults(entries, copies)[..i]) == Ok(done)
    ensures RepoOf(entries[i], copies).Err? ==>
      Gather(RepoResults(entries, copies)) == Err(RepoOf(entries[i], copies).error)
    ensures RepoOf(entries[i], copies).Ok? ==>
      Gather(RepoResults(entries, copies)[..i + 1]) == Ok(done + [RepoOf(entries[i], copies).value])
  {
    var rs := RepoResults(entries, copies);
    GatherSnoc(rs, i);
    if rs[i].Err? {
      GatherErrSticks(rs, i + 1);
    }
  }

  /** The repositories of a job table: the `repositories` list, or the
      legacy single repository. */
  method ReadRepositories(cfg: Mapping) returns (r: Result<seq<ResticRepo>>)
    ensures r == PlanRepos(cfg)
  {
    if !HasKey(cfg, "repositories") {
      var legacy := LegacyRepo(cfg);
      return if legacy.Ok? then Ok([legacy.value]) else Err(legacy.error);
    }
    var listed := Iter(Get(cfg, "repositories").value);
    if listed.None? {
      return Err(WrongType("repositories"));
    }
    r := ReadEntries(cfg, listed.value);
  }

  /** A backup plan: the loaded configuration and the dry-run flag. */
  class BackupPlan {
    const fullConfig: Config
    const dryRun: bool

    /** The configuration is handed over already loaded. */
    constructor(fullConfig: Config, dryRun: bool)
      ensures this.fullConfig == fullConfig && this.dryRun == dryRun
    {
      this.fullConfig := fullConfig;
      this.dryRun := dryRun;
    }

    method CreateBackupJob(category: string, name: string) returns (r: Result<BackupJob>)
      ensures r == CreateJob(fullConfig, dryRun, category, name)
    {
      var d := ResourceDispatch(category);
      if d.None? {
        return Err(InvalidCategory(category));
      }
      var jobs := Get(fullConfig, category);
      if jobs.None? {
        return Err(MissingKey(category));
      }
      var cfg := Get(jobs.value, name);
      if cfg.None? {
        return Err(MissingKey(name));
      }
      var repositories := ReadRepositories(cfg.value);
      if repositories.Err? {
        return Err(repositories.error);
      }
      r := Ok(BackupJob(d.value.scriptName, FromTokenKeyMap(d.value.tokenKeyMap), cfg.value,
                        name, category, repositories.value, dryRun));
    }

    /** `backup_jobs`: the loop over categories and their job names. */
    method BackupJobs() returns (r: Result<seq<BackupJob>>)
      ensures r == AllBackupJobs(fullConfig, dryRun)
    {
      var config := fullConfig;
      var out: seq<BackupJob> := [];
      var c := 0;
      while c < |config|
        invariant 0 <= c <= |config|
        invariant Gather(JobResults(config, dryRun, AllJobs(config[..c]))) == Ok(out)
      {
        var category := config[c].0;
        var jobs := config[c].1;
        assert Visited(config, c, 0) == AllJobs(config[..c]);
        var j := 0;
        while j < |jobs|
          invariant 0 <= j <= |jobs|
          invariant Gather(JobResults(config, dryRun, Visited(config, c, j))) == Ok(out)
        {
          JobsStep(config, dryRun, c, j);
          var job := CreateBackupJob(category, jobs[j].0);
          if job.Err? {
            JobsErrSticks(config, dryRun, c, j + 1);
            return Err(job.error);
          }
          out := out + [job.value];
          j := j + 1;
        }
        AllJobsStep(config, c);
        assert jobs[..j] == jobs;
        c := c + 1;
      }
      assert config[..c] == config;
      r := Ok(out);
    }
  }

  lemma JobsErrSticks(config: Config, dryRun: bool, c: nat, j: nat)
    requires c < |config| && j <= |config[c].1|
    requires Gather(JobResults(config, dryRun, Visited(config, c, j))).Err?
    ensures AllBackupJobs(config, dryRun) == Gather(JobResults(config, dryRun, Visited(config, c, j)))
  {
    VisitedPrefix(config, c, j);
    var all := JobResults(config, dryRun, AllJobs(config));
    var n := |Visited(config, c, j)|;
    assert all[..n] == JobResults(config, dryRun, Visited(config, c, j));
    GatherErrSticks(all, n);
  }

  lemma JobsStep(config: Config, dryRun: bool, c: nat, j: nat)
    requires c < |config| && j < |config[c].1|
    ensures Gather(JobResults(config, dryRun, Visited(config, c, j + 1))) ==
      match Gather(JobResults(config, dryRun, Visited(config, c, j)))
      case Err(e) => Err(e)
      case Ok(done) =>
        (match CreateJob(config, dryRun, config[c].0, config[c].1[j].0)
         case Err(e) => Err(e)
         case Ok(x) => Ok(done + [x]))
  {
    VisitedStep(config, c, j);
    JobResultsPrefix(config, dryRun, Visited(config, c, j + 1));
  }

  /** Dropping the last job reference drops the last result. */
  lemma JobResultsPrefix(config: Config, dryRun: bool, js: seq<JobRef>)
    requires js != []
    ensures var v := JobResults(config, dryRun, js);
      v[..|v| - 1] == JobResults(config, dryRun, js[..|js| - 1])
  {
    var v := JobResults(config, dryRun, js);
    var u := JobResults(config, dryRun, js[..|js| - 1]);
    forall i | 0 <= i < |u| ensures v[..|v| - 1][i] == u[i] {
      assert js[..|js| - 1][i] == js[i];
    }
  }

  // ---------------------------------------------------------------------
  // What the plan promises.

  /** A category missing from the dispatch table is rejected before the
      configuration is looked at, whatever it holds. */
  lemma InvalidCategoryFirst(config: Config, other: Config, dryRun: bool, category: string, name: string)
    requires category !in Categories
    ensures CreateJob(config, dryRun, category, name) == Err(InvalidCategory(category))
    ensures CreateJob(config, dryRun, category, name) == CreateJob(other, dryRun, category, name)
  {
  }

  /** The copy destinations are the `copy_to` elements read in order, each
      keeping its repo value and reading its password file and counts. */
  lemma CopyDestinationsRead(cfg: Mapping, cs: seq<Value>)
    requires HasKey(cfg, "copy_to") && Iter(Get(cfg, "copy_to").value) == Some(cs)
    ensures CopyDestinations(cfg).Ok? <==> forall i :: 0 <= i < |cs| ==> CopyDestinationOf(cs[i]).Ok?
    ensures CopyDestinations(cfg).Ok? ==>
      var ds := CopyDestinations(cfg).value;
      |ds| == |cs| &&
      forall i :: 0 <= i < |cs| ==>
        && cs[i].Dict?
        && Get(cs[i].entries, "repo") == Some(ds[i].repo)
        && Get(cs[i].entries, "password_file") == Some(Str(ds[i].passwordFile))
        && ParseKeep(cs[i].entries) == Ok(ds[i].keep)
  {
    var rs := CopyResults(cs);
    assert CopyDestinations(cfg) == Gather(rs);
    GatherOk(rs);
    if Gather(rs).Ok? {
      var ds := Gather(rs).value;
      forall i | 0 <= i < |cs|
        ensures && cs[i].Dict?
                && Get(cs[i].entries, "repo") == Some(ds[i].repo)
                && Get(cs[i].entries, "password_file") == Some(Str(ds[i].passwordFile))
                && ParseKeep(cs[i].entries) == Ok(ds[i].keep)
      {
        CopyDestinationFields(cs[i]);
      }
    }
  }

  lemma CopyDestinationFields(v: Value)
    requires CopyDestinationOf(v).Ok?
    ensures var d := CopyDestinationOf(v).value;
      && v.Dict?
      && Get(v.entries, "repo") == Some(d.repo)
      && Get(v.entries, "password_file") == Some(Str(d.passwordFile))
      && ParseKeep(v.entries) == Ok(d.keep)
  {
  }

  /** A new-format job: one repository per `repositories` entry, in order,
      each read from its own entry, and all carrying the one list parsed from
      the job's `copy_to`. */
  lemma PlanReposNewFormat(cfg: Mapping, entries: seq<Value>)
    requires HasKey(cfg, "repositories") && Iter(Get(cfg, "repositories").value) == Some(entries)
    ensures entries == [] ==> PlanRepos(cfg) == Ok([])
    ensures entries != [] ==>
      (PlanRepos(cfg).Ok? <==>
       CopyDestinations(cfg).Ok? && forall i :: 0 <= i < |entries| ==> ParseRepoFields(entries[i]).Ok?)
    ensures entries != [] && PlanRepos(cfg).Ok? ==>
      var rs := PlanRepos(cfg).value;
      |rs| == |entries| &&
      forall i :: 0 <= i < |entries| ==>
        rs[i] == ParseRepoFields(entries[i]).value.(copyDestinations := CopyDestinations(cfg).value)
  {
    if entries != [] && CopyDestinations(cfg).Ok? {
      GatherOk(RepoResults(entries, CopyDestinations(cfg).value));
    }
  }

  /** Every repository of a job carries the same copy destinations, and none
      at all when the job has no `copy_to`. */
  lemma SharedCopyDestinations(cfg: Mapping)
    requires PlanRepos(cfg).Ok?
    ensures var rs := PlanRepos(cfg).value;
      forall i, j :: 0 <= i < |rs| && 0 <= j < |rs| ==> rs[i].copyDestinations == rs[j].copyDestinations
    ensures !HasKey(cfg, "copy_to") ==>
      forall r :: r in PlanRepos(cfg).value ==> r.copyDestinations == []
    ensures HasKey(cfg, "repositories") ==>
      forall r :: r in PlanRepos(cfg).value ==> r.copyDestinations == CopyDestinations(cfg).value
  {
    if HasKey(cfg, "repositories") {
      var entries := Iter(Get(cfg, "repositories").value).value;
      PlanReposNewFormat(cfg, entries);
    }
  }

  /** A legacy job has exactly one repository, read from restic_repo,
      restic_password_file and the retention counts, with no copy
      destinations even when `copy_to` is present. */
  lemma PlanReposLegacy(cfg: Mapping)
    requires !HasKey(cfg, "repositories")
    ensures PlanRepos(cfg).Ok? <==> LegacyRepo(cfg).Ok?
    ensures PlanRepos(cfg).Ok? ==>
      var rs := PlanRepos(cfg).value;
      && |rs| == 1
      && Get(cfg, "restic_repo") == Some(Str(rs[0].repoPath))
      && Get(cfg, "restic_password_file") == Some(Str(rs[0].passwordFile))
      && ParseKeep(cfg) == Ok(rs[0].keep)
      && rs[0].copyDestinations == []
  {
  }

  /** An entry read with no copy destinations is the entry as the
      uniqueness check reads it. */
  lemma RepoOfNoCopies(entry: Value)
    requires ParseRepoFields(entry).Ok?
    ensures RepoOf(entry, []) == ParseRepoFields(entry)
  {
    EntryFields(entry);
  }

  lemma EntriesAgree(category: string, job: string, entries: seq<Value>)
    requires CollectRepos(category, job, entries).Ok?
    ensures Gather(RepoResults(entries, [])) == CollectRepos(category, job, entries)
  {
    CollectReposOk(category, job, entries);
    var rs := CollectRepos(category, job, entries).value;
    var results := RepoResults(entries, []);
    forall i | 0 <= i < |entries| ensures results[i] == Ok(rs[i]) {
      RepoOfNoCopies(entries[i]);
    }
    GatherOk(results);
    assert Gather(results).value == rs;
  }

  /** Without `copy_to`, a job the uniqueness check accepts gets from the plan
      exactly the repositories that check computed. */
  lemma PlanAgreesWithUniqueCheck(category: string, job: string, cfg: Mapping)
    requires !HasKey(cfg, "copy_to") && JobRepos(category, job, cfg).Ok?
    ensures PlanRepos(cfg) == JobRepos(category, job, cfg)
  {
    if HasKey(cfg, "repositories") {
      var entries := Iter(Get(cfg, "repositories").value).value;
      assert JobRepos(category, job, cfg) == CollectRepos(category, job, entries);
      if entries == [] {
        assert CollectRepos(category, job, entries) == Ok([]);
      } else {
        assert CopyDestinations(cfg) == Ok([]);
        assert PlanRepos(cfg) == Gather(RepoResults(entries, []));
        EntriesAgree(category, job, entries);
      }
    }
  }

  /** The plan itself makes no duplicate check: a job listing one valid
      repository entry twice gets that repository twice, while the
      uniqueness check rejects the job. */
  lemma NoDuplicateCheck(category: string, job: string, e: Value)
    requires ParseRepoFields(e).Ok?
    ensures var cfg := [("repositories", List([e, e]))];
      && PlanRepos(cfg) == Ok([ParseRepoFields(e).value, ParseRepoFields(e).value])
      && JobRepos(category, job, cfg) == Err(DuplicateRepo(category, job, ParseRepoFields(e).value.repoPath))
  {
    PlanKeepsBoth(e);
    CheckRejectsTwice(category, job, e);
  }

  lemma PlanKeepsBoth(e: Value)
    requires ParseRepoFields(e).Ok?
    ensures PlanRepos([("repositories", List([e, e]))]) == Ok([ParseRepoFields(e).value, ParseRepoFields(e).value])
  {
    var cfg := [("repositories", List([e, e]))];
    assert Get(cfg, "repositories") == Some(List([e, e]));
    PlanReposNewFormat(cfg, [e, e]);
    RepoOfNoCopies(e);
    var r := ParseRepoFields(e).value;
    assert PlanRepos(cfg).value == [r, r];
  }

  lemma CheckRejectsTwice(category: string, job: string, e: Value)
    requires ParseRepoFields(e).Ok?
    ensures JobRepos(category, job, [("repositories", List([e, e]))]) ==
      Err(DuplicateRepo(category, job, ParseRepoFields(e).value.repoPath))
  {
    var cfg := [("repositories", List([e, e]))];
    assert Get(cfg, "repositories") == Some(List([e, e]));
    var r := ParseRepoFields(e).value;
    EntryFields(e);
    DuplicateRejected(category, job, [e, e], 0, 1, r.repoPath);
    assert [e, e][..1] == [e];
    CollectSingle(category, job, e);
  }

  /** A created job carries its category's script and token pairs, the job
      table, the given name, category and dry-run flag, and the plan's
      repositories; it is created exactly when each lookup succeeds. */
  lemma CreateJobFields(config: Config, dryRun: bool, category: string, name: string)
    ensures CreateJob(config, dryRun, category, name).Ok? <==>
      && category in Categories
      && HasKey(config, category)
      && HasKey(Get(config, category).value, name)
      && PlanRepos(Get(Get(config, category).value, name).value).Ok?
    ensures CreateJob(config, dryRun, category, name).Ok? ==>
      var job := CreateJob(config, dryRun, category, name).value;
      var d := ResourceDispatch(category).value;
      var cfg := Get(Get(config, category).value, name).value;
      && job.scriptName == d.scriptName
      && |job.pairs| == |d.tokenKeyMap|
      && (forall i :: 0 <= i < |d.tokenKeyMap| ==>
            job.pairs[i] == TokenConfigKeyPair(d.tokenKeyMap[i].0, d.tokenKeyMap[i].1))
      && job.config == cfg && job.name == name && job.category == category
      && job.repositories == PlanRepos(cfg).value && job.dryRun == dryRun
  {
  }

  /** `backup_jobs` succeeds exactly when every job of the configuration can
      be created, and gives no job for an empty configuration. */
  lemma AllBackupJobsOk(config: Config, dryRun: bool)
    ensures config == [] ==> AllBackupJobs(config, dryRun) == Ok([])
    ensures AllBackupJobs(config, dryRun).Ok? <==>
      forall j :: j in AllJobs(config) ==> CreateJob(config, dryRun, j.category, j.name).Ok?
  {
    var js := AllJobs(config);
    var rs := JobResults(config, dryRun, js);
    GatherOk(rs);
    if config == [] {
      assert rs == [];
    }
    if forall j :: j in js ==> CreateJob(config, dryRun, j.category, j.name).Ok? {
      forall i | 0 <= i < |rs| ensures rs[i].Ok? {
        assert js[i] in js;
      }
    } else {
      var j :| j in js && !CreateJob(config, dryRun, j.category, j.name).Ok?;
      var k :| 0 <= k < |js| && js[k] == j;
      assert !rs[k].Ok?;
    }
  }

  /** `backup_jobs` creates one job per (category, name) of the
      configuration, in iteration order. */
  lemma AllBackupJobsShape(config: Config, dryRun: bool)
    requires AllBackupJobs(config, dryRun).Ok?
    ensures var jobs := AllBackupJobs(config, dryRun).value;
      |jobs| == |AllJobs(config)| &&
      forall i :: 0 <= i < |jobs| ==>
        jobs[i].category == AllJobs(config)[i].category && jobs[i].name == AllJobs(config)[i].name &&
        jobs[i].dryRun == dryRun
  {
    var js := AllJobs(config);
    var rs := JobResults(config, dryRun, js);
    GatherOk(rs);
    forall i | 0 <= i < |js| {
      CreateJobFields(config, dryRun, js[i].category, js[i].name);
    }
  }

  /** In a configuration with unique keys, each job's table is the one
      listed under its category and name. */
  lemma AllBackupJobsTables(config: Config, dryRun: bool)
    requires WellFormedConfig(config) && AllBackupJobs(config, dryRun).Ok?
    ensures var jobs := AllBackupJobs(config, dryRun).value;
      |jobs| == |AllJobs(config)| &&
      forall i :: 0 <= i < |jobs| ==> jobs[i].config == AllJobs(config)[i].cfg
  {
    var js := AllJobs(config);
    AllBackupJobsShape(config, dryRun);
    AllJobsMembers(config);
    GatherOk(JobResults(config, dryRun, js));
    var jobs := AllBackupJobs(config, dryRun).value;
    forall i | 0 <= i < |jobs| ensures jobs[i].config == js[i].cfg {
      assert js[i] in js;
      var c, j :| 0 <= c < |config| && 0 <= j < |config[c].1| &&
        js[i] == JobRef(config[c].0, config[c].1[j].0, config[c].1[j].1);
      GetAt(config, c);
      GetAt(config[c].1, j);
      CreateJobFields(config, dryRun, js[i].category, js[i].name);
    }
  }
}
