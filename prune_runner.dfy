/** The prune entry point: after confirm_unique_repos has read every
    repository of the configuration, each repository of each job the
    category and name filters let through is pruned, in order. */
module PruneRunner {
  import opened Results
  import opened PyValues
  import opened Shell
  import opened Repos
  import Runner

  /** The prune commands for the repositories of one job, one per
      repository, in order. */
  function RepoCommands(scriptPath: string, repos: seq<ResticRepo>, dryRun: bool): seq<Argv>
  {
    seq(|repos|, i requires 0 <= i < |repos| => PruneArgv(scriptPath, repos[i], dryRun))
  }

  predicate Chosen(l: JobRepoList, category: Option<string>, name: Option<string>)
  {
    Runner.Matches(category, l.category) && Runner.Matches(name, l.name)
  }

  /** The repositories the loop prunes, in order: those of every job both
      filters let through. */
  function ChosenRepos(lists: seq<JobRepoList>, category: Option<string>, name: Option<string>): seq<ResticRepo>
  {
    if lists == [] then []
    else
      var n := |lists| - 1;
      ChosenRepos(lists[..n], category, name) + (if Chosen(lists[n], category, name) then lists[n].repos else [])
  }

  /** The repositories of all the given jobs, in order. */
  function AllRepos(lists: seq<JobRepoList>): seq<ResticRepo>
  {
    if lists == [] then [] else AllRepos(lists[..|lists| - 1]) + lists[|lists| - 1].repos
  }

  // ---------------------------------------------------------------------
  // The entry point.

  /** The inner loop: prune each repository of one job, in order. */
  method PruneJob(repos: seq<ResticRepo>, scriptPath: string, dryRun: bool, host: Host)
    modifies host
    ensures host.log == old(host.log) + RepoCommands(scriptPath, repos, dryRun)
  {
    ghost var log0 := host.log;
    var j := 0;
    while j < |repos|
      invariant 0 <= j <= |repos|
      invariant host.log == log0 + RepoCommands(scriptPath, repos[..j], dryRun)
    {
      var ok := Prune(repos[j], scriptPath, dryRun, host);
      PruneStep(scriptPath, dryRun, log0, repos, j);
      j := j + 1;
    }
    assert repos[..j] == repos;
  }

  /** `main` after the configuration is loaded: a duplicate repository (or
      any other error of confirm_unique_repos) raises before anything is
      pruned; otherwise every chosen repository is pruned, and a prune that
      fails is reported by `prune` and does not stop the ones after it. */
  method PruneRepos(config: Config, scriptPath: string, category: Option<string>, name: Option<string>,
                    dryRun: bool, host: Host) returns (r: Outcome)
    modifies host
    ensures UniqueRepos(config).Err? ==> r == Fail(UniqueRepos(config).error) && host.log == old(host.log)
    ensures UniqueRepos(config).Ok? ==>
      && r == Pass
      && host.log == old(host.log) +
           RepoCommands(scriptPath, ChosenRepos(UniqueRepos(config).value, category, name), dryRun)
  {
    var found := ConfirmUniqueRepos(config);
    if found.Err? {
      return Fail(found.error);
    }
    PruneLists(found.value, scriptPath, category, name, dryRun, host);
    r := Pass;
  }

  /** The loop over the jobs' repository lists with its two `continue`
      filters. */
  method PruneLists(lists: seq<JobRepoList>, scriptPath: string, category: Option<string>, name: Option<string>,
                    dryRun: bool, host: Host)
    modifies host
    ensures host.log == old(host.log) + RepoCommands(scriptPath, ChosenRepos(lists, category, name), dryRun)
  {
    ghost var log0 := host.log;
    var i := 0;
    while i < |lists|
      invariant 0 <= i <= |lists|
      invariant host.log == log0 + RepoCommands(scriptPath, ChosenRepos(lists[..i], category, name), dryRun)
    {
      PruneTurn(lists, i, scriptPath, category, name, dryRun, host, log0);
      i := i + 1;
    }
    TakeAll(lists);
  }

  /** One turn of the loop: the two `continue` filters, then the job's
      repositories if both let it through. */
  method PruneTurn(lists: seq<JobRepoList>, i: nat, scriptPath: string, category: Option<string>, name: Option<string>,
                   dryRun: bool, host: Host, ghost log0: seq<Argv>)
    requires i < |lists|
    requires host.log == log0 + RepoCommands(scriptPath, ChosenRepos(lists[..i], category, name), dryRun)
    modifies host
    ensures host.log == log0 + RepoCommands(scriptPath, ChosenRepos(lists[..i + 1], category, name), dryRun)
  {
    var l := lists[i];
    ChosenStep(scriptPath, dryRun, log0, lists, category, name, i);
    if !(Runner.Matches(category, l.category) && Runner.Matches(name, l.name)) {
      return;
    }
    PruneJob(l.repos, scriptPath, dryRun, host);
  }

  // ---------------------------------------------------------------------
  // The two loops, one turn at a time.

  /** One job of the outer loop: its repositories' commands, if it is
      chosen, follow those of the jobs before it. */
  lemma ChosenStep(scriptPath: string, dryRun: bool, log0: seq<Argv>, lists: seq<JobRepoList>,
                   category: Option<string>, name: Option<string>, i: nat)
    requires i < |lists|
    ensures var pre := log0 + RepoCommands(scriptPath, ChosenRepos(lists[..i], category, name), dryRun);
      var post := log0 + RepoCommands(scriptPath, ChosenRepos(lists[..i + 1], category, name), dryRun);
      && (Chosen(lists[i], category, name) ==> post == pre + RepoCommands(scriptPath, lists[i].repos, dryRun))
      && (!Chosen(lists[i], category, name) ==> post == pre)
  {
    assert lists[..i + 1][..i] == lists[..i];
    var done := ChosenRepos(lists[..i], category, name);
    if Chosen(lists[i], category, name) {
      RepoCommandsAppend(scriptPath, done, lists[i].repos, dryRun);
      AppendAssoc(log0, RepoCommands(scriptPath, done, dryRun), RepoCommands(scriptPath, lists[i].repos, dryRun));
    } else {
      assert done + [] == done;
    }
  }

  /** One repository of the inner loop: its command follows those of the
      repositories before it. */
  lemma PruneStep(scriptPath: string, dryRun: bool, log0: seq<Argv>, repos: seq<ResticRepo>, j: nat)
    requires j < |repos|
    ensures (log0 + RepoCommands(scriptPath, repos[..j], dryRun)) + [PruneArgv(scriptPath, repos[j], dryRun)] ==
      log0 + RepoCommands(scriptPath, repos[..j + 1], dryRun)
  {
    RepoCommandsSnoc(scriptPath, repos, j, dryRun);
    AppendAssoc(log0, RepoCommands(scriptPath, repos[..j], dryRun), [PruneArgv(scriptPath, repos[j], dryRun)]);
  }

  lemma RepoCommandsSnoc(scriptPath: string, repos: seq<ResticRepo>, j: nat, dryRun: bool)
    requires j < |repos|
    ensures RepoCommands(scriptPath, repos[..j + 1], dryRun) ==
      RepoCommands(scriptPath, repos[..j], dryRun) + [PruneArgv(scriptPath, repos[j], dryRun)]
  {
    var x := RepoCommands(scriptPath, repos[..j + 1], dryRun);
    var y := RepoCommands(scriptPath, repos[..j], dryRun) + [PruneArgv(scriptPath, repos[j], dryRun)];
    forall k | 0 <= k < |x| ensures x[k] == y[k] {
      assert repos[..j + 1][k] == repos[k];
    }
  }

  /** The commands for two runs of repositories are those of each in turn. */
  lemma RepoCommandsAppend(scriptPath: string, a: seq<ResticRepo>, b: seq<ResticRepo>, dryRun: bool)
    ensures RepoCommands(scriptPath, a + b, dryRun) == RepoCommands(scriptPath, a, dryRun) + RepoCommands(scriptPath, b, dryRun)
  {
    var x := RepoCommands(scriptPath, a + b, dryRun);
    var y := RepoCommands(scriptPath, a, dryRun) + RepoCommands(scriptPath, b, dryRun);
    forall k | 0 <= k < |x| ensures x[k] == y[k] {
      if k < |a| {
        assert (a + b)[k] == a[k];
      } else {
        assert (a + b)[k] == b[k - |a|];
      }
    }
  }

  // ---------------------------------------------------------------------
  // What the prune loop promises.

  /** Choosing distributes over concatenation of job lists. */
  lemma {:induction false} ChosenAppend(a: seq<JobRepoList>, b: seq<JobRepoList>,
                                        category: Option<string>, name: Option<string>)
    ensures ChosenRepos(a + b, category, name) == ChosenRepos(a, category, name) + ChosenRepos(b, category, name)
    decreases |b|
  {
    if b == [] {
      assert a + b == a;
    } else {
      var n := |b| - 1;
      assert (a + b)[..|a + b| - 1] == a + b[..n];
      ChosenAppend(a, b[..n], category, name);
    }
  }

  /** A repository is pruned exactly when it belongs to some job both
      filters let through. */
  lemma {:induction false} ChosenMembers(lists: seq<JobRepoList>, category: Option<string>, name: Option<string>)
    ensures forall r :: r in ChosenRepos(lists, category, name) <==>
      exists k :: 0 <= k < |lists| && Chosen(lists[k], category, name) && r in lists[k].repos
  {
    if lists != [] {
      var n := |lists| - 1;
      var pre := lists[..n];
      ChosenMembers(pre, category, name);
      forall r
        ensures r in ChosenRepos(lists, category, name) <==>
          exists k :: 0 <= k < |lists| && Chosen(lists[k], category, name) && r in lists[k].repos
      {
        if exists k :: 0 <= k < |lists| && Chosen(lists[k], category, name) && r in lists[k].repos {
          var k :| 0 <= k < |lists| && Chosen(lists[k], category, name) && r in lists[k].repos;
          if k < n {
            assert pre[k] == lists[k];
          }
        }
        if r in ChosenRepos(pre, category, name) {
          var k :| 0 <= k < |pre| && Chosen(pre[k], category, name) && r in pre[k].repos;
          assert pre[k] == lists[k];
        }
      }
    }
  }

  /** The k-th command prunes the k-th chosen repository, with that
      repository's keep values, and ends in "--dry-run" exactly when the
      run is a dry run. */
  lemma DryRunPassedOn(scriptPath: string, rs: seq<ResticRepo>, dryRun: bool)
    ensures forall k :: 0 <= k < |RepoCommands(scriptPath, rs, dryRun)| ==>
      ParsePruneArgv(RepoCommands(scriptPath, rs, dryRun)[k]) ==
        Some(PruneRequest(scriptPath, rs[k].repoPath, rs[k].passwordFile, rs[k].keep, dryRun))
  {
    forall k | 0 <= k < |rs|
      ensures ParsePruneArgv(RepoCommands(scriptPath, rs, dryRun)[k]) ==
        Some(PruneRequest(scriptPath, rs[k].repoPath, rs[k].passwordFile, rs[k].keep, dryRun))
    {
      PruneArgvRoundTrip(scriptPath, rs[k], dryRun);
    }
  }

  /** Without filters (or with empty-string filters) every repository of
      every job is pruned, job after job. */
  lemma {:induction false} NoFilterPrunesAll(lists: seq<JobRepoList>, category: Option<string>, name: Option<string>)
    requires category.None? || category == Some("")
    requires name.None? || name == Some("")
    ensures ChosenRepos(lists, category, name) == AllRepos(lists)
  {
    if lists != [] {
      NoFilterPrunesAll(lists[..|lists| - 1], category, name);
    }
  }

  /** The same repository under two jobs is pruned once for each job: only
      repositories within one job are required to be distinct. */
  lemma SharedRepoPrunedTwice(a: string, b: string, repo: ResticRepo)
    ensures ChosenRepos([JobRepoList("standard_path", a, [repo]), JobRepoList("standard_path", b, [repo])],
                        None, None) == [repo, repo]
  {
    var lists := [JobRepoList("standard_path", a, [repo]), JobRepoList("standard_path", b, [repo])];
    assert lists[..1][..0] == [];
    assert ChosenRepos(lists[..1], None, None) == [repo];
    assert lists[..|lists| - 1] == lists[..1];
  }

  /** With both filters non-empty and only one job under that category and
      name, exactly that job's repositories are pruned, in order. */
  lemma {:induction false} BothFiltersPruneOneJob(lists: seq<JobRepoList>, category: string, name: string, k: nat)
    requires category != "" && name != ""
    requires k < |lists| && lists[k].category == category && lists[k].name == name
    requires forall i :: 0 <= i < |lists| && i != k ==> (lists[i].category, lists[i].name) != (category, name)
    ensures ChosenRepos(lists, Some(category), Some(name)) == lists[k].repos
  {
    assert forall i :: 0 <= i < k ==> lists[..k][i] == lists[i];
    assert forall i :: k + 1 <= i < |lists| ==> lists[k + 1..][i - (k + 1)] == lists[i];
    NoneChosen(lists[..k], category, name);
    NoneChosen(lists[k + 1..], category, name);
    assert lists == lists[..k] + [lists[k]] + lists[k + 1..];
    ChosenAppend(lists[..k] + [lists[k]], lists[k + 1..], Some(category), Some(name));
    ChosenAppend(lists[..k], [lists[k]], Some(category), Some(name));
    assert [lists[k]][..0] == [];
  }

  /** Jobs none of which carries the filtered category and name issue
      nothing. */
  lemma {:induction false} NoneChosen(lists: seq<JobRepoList>, category: string, name: string)
    requires category != "" && name != ""
    requires forall i :: 0 <= i < |lists| ==> (lists[i].category, lists[i].name) != (category, name)
    ensures ChosenRepos(lists, Some(category), Some(name)) == []
  {
    if lists != [] {
      var n := |lists| - 1;
      assert forall i :: 0 <= i < n ==> lists[..n][i] == lists[i];
      NoneChosen(lists[..n], category, name);
    }
  }
}
