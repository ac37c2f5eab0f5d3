/** The job runner: the jobs of a plan, filtered by category and name, run
    one after the other until one of them raises. */
module Runner {
  import opened Results
  import opened Shell
  import opened BackupJobs
  import opened BackupExecution

  /** `if f and v != f: continue` lets v through: a filter that is None or
      the empty string is falsy and lets everything through. */
  predicate Matches(filter: Option<string>, v: string)
  {
    filter.None? || filter.value == "" || filter.value == v
  }

  predicate Selected(job: BackupJob, category: Option<string>, name: Option<string>)
  {
    Matches(category, job.category) && Matches(name, job.name)
  }

  /** The jobs the filters let through, in their order. */
  function Select(jobs: seq<BackupJob>, category: Option<string>, name: Option<string>): (r: seq<BackupJob>)
    ensures |r| <= |jobs|
  {
    if jobs == [] then []
    else
      var n := |jobs| - 1;
      Select(jobs[..n], category, name) + (if Selected(jobs[n], category, name) then [jobs[n]] else [])
  }

  /** The commands the jobs run so far issued, and each one's outcome. */
  datatype Runs = Runs(trace: seq<Argv>, outcomes: seq<JobOutcome>)

  /** The last job run raised, so `run_all` raises too and runs no more. */
  predicate Stopped(rs: Runs)
  {
    |rs.outcomes| > 0 && rs.outcomes[|rs.outcomes| - 1].Raised?
  }

  /** Running the given jobs in order from log position `start`, stopping
      after the first that raises. */
  function RunJobs(js: seq<BackupJob>, exec: (BackupJob, nat) -> JobRun, start: nat): Runs
  {
    if js == [] then Runs([], [])
    else
      var prev := RunJobs(js[..|js| - 1], exec, start);
      if Stopped(prev) then prev
      else
        var r := exec(js[|js| - 1], start + |prev.trace|);
        Runs(prev.trace + r.trace, prev.outcomes + [r.outcome])
  }

  /** `run_all(category, name)`. */
  function RunAll(jobs: seq<BackupJob>, category: Option<string>, name: Option<string>,
                  exec: (BackupJob, nat) -> JobRun, start: nat): Runs
  {
    RunJobs(Select(jobs, category, name), exec, start)
  }

  /** `exec` is what `job.run()` does on this host from each log position. */
  ghost predicate Describes(exec: (BackupJob, nat) -> JobRun, host: Host)
  {
    forall job, start {:trigger JobRunSpec(job, host.succeeds, host.clock, start)} ::
      exec(job, start) == JobRunSpec(job, host.succeeds, host.clock, start)
  }

  /** `job.run()` seen through the execution function. */
  method RunJob(job: BackupJob, host: Host, ghost exec: (BackupJob, nat) -> JobRun) returns (outcome: JobOutcome)
    requires Describes(exec, host)
    modifies host
    ensures host.log == old(host.log) + exec(job, |old(host.log)|).trace
    ensures outcome == exec(job, |old(host.log)|).outcome
  {
    outcome := Run(job, host);
  }

  /** One turn of the loop for a job both filters let through: it runs,
      and its commands and outcome extend those of the jobs before it. */
  method RunSelected(jobs: seq<BackupJob>, category: Option<string>, name: Option<string>, i: nat,
                     host: Host, ghost exec: (BackupJob, nat) -> JobRun, ghost log0: seq<Argv>,
                     ghost trace: seq<Argv>, outcomes: seq<JobOutcome>)
    returns (ghost trace': seq<Argv>, outcome: JobOutcome)
    requires i < |jobs| && Selected(jobs[i], category, name)
    requires RunJobs(Select(jobs[..i], category, name), exec, |log0|) == Runs(trace, outcomes)
    requires !Stopped(Runs(trace, outcomes))
    requires Describes(exec, host) && host.log == log0 + trace
    modifies host
    ensures RunJobs(Select(jobs[..i + 1], category, name), exec, |log0|) == Runs(trace', outcomes + [outcome])
    ensures host.log == log0 + trace'
  {
    RunStep(jobs, category, name, exec, |log0|, i, trace, outcomes);
    ghost var r := exec(jobs[i], |log0| + |trace|);
    outcome := RunJob(jobs[i], host, exec);
    AppendAssoc(log0, trace, r.trace);
    trace' := trace + r.trace;
  }

  /** One turn of the loop: the two `continue` filters, then the job if
      both let it through; `stopped` tells whether that job raised, which
      ends the whole run. */
  method RunTurn(jobs: seq<BackupJob>, category: Option<string>, name: Option<string>, i: nat,
                 host: Host, ghost exec: (BackupJob, nat) -> JobRun, ghost log0: seq<Argv>,
                 ghost trace: seq<Argv>, outcomes: seq<JobOutcome>)
    returns (ghost trace': seq<Argv>, outcomes': seq<JobOutcome>, stopped: bool)
    requires i < |jobs|
    requires RunJobs(Select(jobs[..i], category, name), exec, |log0|) == Runs(trace, outcomes)
    requires !Stopped(Runs(trace, outcomes))
    requires Describes(exec, host) && host.log == log0 + trace
    modifies host
    ensures RunJobs(Select(jobs[..i + 1], category, name), exec, |log0|) == Runs(trace', outcomes')
    ensures host.log == log0 + trace'
    ensures stopped == Stopped(Runs(trace', outcomes'))
  {
    var job := jobs[i];
    if !(Matches(category, job.category) && Matches(name, job.name)) {
      RunStep(jobs, category, name, exec, |log0|, i, trace, outcomes);
      return trace, outcomes, false;
    }
    var outcome;
    trace', outcome := RunSelected(jobs, category, name, i, host, exec, log0, trace, outcomes);
    outcomes' := outcomes + [outcome];
    stopped := outcome.Raised?;
  }

  // ---------------------------------------------------------------------
  // The class.

  /** Keeps the list of jobs; running them leaves the list as it is. */
  class BackupJobRunner {
    const jobs: seq<BackupJob>

    constructor(jobs: seq<BackupJob>)
      ensures this.jobs == jobs
    {
      this.jobs := jobs;
    }

    /** The loop with its two `continue` filters; the error of a job that
        raises is the error `run_all` raises. */
    method RunAllJobs(category: Option<string>, name: Option<string>, host: Host,
                      ghost exec: (BackupJob, nat) -> JobRun)
      returns (outcomes: seq<JobOutcome>, raised: Option<Error>)
      requires Describes(exec, host)
      modifies host
      ensures var spec := RunAll(jobs, category, name, exec, |old(host.log)|);
        && host.log == old(host.log) + spec.trace
        && outcomes == spec.outcomes
        && raised == (if Stopped(spec) then Some(spec.outcomes[|spec.outcomes| - 1].error) else None)
    {
      ghost var log0 := host.log;
      ghost var trace: seq<Argv> := [];
      outcomes := [];
      var i := 0;
      while i < |jobs|
        invariant 0 <= i <= |jobs|
        invariant RunJobs(Select(jobs[..i], category, name), exec, |log0|) == Runs(trace, outcomes)
        invariant !Stopped(Runs(trace, outcomes))
        invariant host.log == log0 + trace
      {
        var stopped;
        trace, outcomes, stopped := RunTurn(jobs, category, name, i, host, exec, log0, trace, outcomes);
        if stopped {
          RunEndsAt(jobs, category, name, i + 1, exec, |log0|, Runs(trace, outcomes));
          return outcomes, Some(outcomes[|outcomes| - 1].error);
        }
        i := i + 1;
      }
      RunEndsAt(jobs, category, name, i, exec, |log0|, Runs(trace, outcomes));
      raised := None;
    }
  }

  // ---------------------------------------------------------------------
  // Properties of the filters and of the loop.

  /** One turn of the loop: a job the filters stop leaves everything as it
      was, a selected one adds its run. */
  lemma RunStep(jobs: seq<BackupJob>, category: Option<string>, name: Option<string>,
                exec: (BackupJob, nat) -> JobRun, start: nat, i: nat, trace: seq<Argv>, outcomes: seq<JobOutcome>)
    requires i < |jobs| && RunJobs(Select(jobs[..i], category, name), exec, start) == Runs(trace, outcomes)
    requires !Stopped(Runs(trace, outcomes))
    ensures !Selected(jobs[i], category, name) ==>
      RunJobs(Select(jobs[..i + 1], category, name), exec, start) == Runs(trace, outcomes)
    ensures Selected(jobs[i], category, name) ==>
      var r := exec(jobs[i], start + |trace|);
      RunJobs(Select(jobs[..i + 1], category, name), exec, start) == Runs(trace + r.trace, outcomes + [r.outcome])
  {
    assert jobs[..i + 1][..i] == jobs[..i];
    var sel := Select(jobs[..i], category, name);
    if Selected(jobs[i], category, name) {
      assert Select(jobs[..i + 1], category, name) == sel + [jobs[i]];
      assert (sel + [jobs[i]])[..|sel|] == sel;
    } else {
      assert Select(jobs[..i + 1], category, name) == sel;
    }
  }

  lemma {:induction false} RunJobsPrefixStops(js: seq<BackupJob>, k: nat, exec: (BackupJob, nat) -> JobRun,
                                              start: nat)
    requires k <= |js| && Stopped(RunJobs(js[..k], exec, start))
    ensures RunJobs(js, exec, start) == RunJobs(js[..k], exec, start)
    decreases |js| - k
  {
    if k < |js| {
      assert js[..k + 1][..k] == js[..k];
      RunJobsPrefixStops(js, k + 1, exec, start);
    } else {
      assert js[..k] == js;
    }
  }

  /** Filtering a longer list of jobs extends the filtered shorter list. */
  lemma {:induction false} SelectPrefix(jobs: seq<BackupJob>, i: nat, category: Option<string>, name: Option<string>)
    requires i <= |jobs|
    ensures Select(jobs, category, name) == Select(jobs[..i], category, name) + Select(jobs[i..], category, name)
  {
    assert jobs == jobs[..i] + jobs[i..];
    SelectAppend(jobs[..i], jobs[i..], category, name);
  }

  lemma SelectPrefixStops(jobs: seq<BackupJob>, category: Option<string>, name: Option<string>, i: nat,
                          exec: (BackupJob, nat) -> JobRun, start: nat)
    requires i <= |jobs| && Stopped(RunJobs(Select(jobs[..i], category, name), exec, start))
    ensures RunAll(jobs, category, name, exec, start) ==
      RunJobs(Select(jobs[..i], category, name), exec, start)
  {
    SelectPrefix(jobs, i, category, name);
    var all := Select(jobs, category, name);
    var pre := Select(jobs[..i], category, name);
    assert all[..|pre|] == pre;
    RunJobsPrefixStops(all, |pre|, exec, start);
  }

  /** The loop's record is the whole run once it has looked at every job
      or once a job raised. */
  lemma RunEndsAt(jobs: seq<BackupJob>, category: Option<string>, name: Option<string>, i: nat,
                  exec: (BackupJob, nat) -> JobRun, start: nat, rs: Runs)
    requires i <= |jobs| && RunJobs(Select(jobs[..i], category, name), exec, start) == rs
    requires i == |jobs| || Stopped(rs)
    ensures RunAll(jobs, category, name, exec, start) == rs
  {
    if i == |jobs| {
      assert jobs[..i] == jobs;
    } else {
      SelectPrefixStops(jobs, category, name, i, exec, start);
    }
  }

  /** Filtering keeps the order: it distributes over concatenation, and a
      single job is kept exactly when both filters let it through. */
  lemma {:induction false} SelectAppend(a: seq<BackupJob>, b: seq<BackupJob>, category: Option<string>, name: Option<string>)
    ensures Select(a + b, category, name) == Select(a, category, name) + Select(b, category, name)
    decreases |b|
  {
    if b == [] {
      assert a + b == a;
    } else {
      var n := |b| - 1;
      assert (a + b)[..|a + b| - 1] == a + b[..n];
      SelectAppend(a, b[..n], category, name);
    }
  }

  lemma SelectSingle(job: BackupJob, category: Option<string>, name: Option<string>)
    ensures Select([job], category, name) == if Selected(job, category, name) then [job] else []
  {
    assert [job][..0] == [];
  }

  /** A job is selected exactly when it is in the list and both filters let
      it through. */
  lemma {:induction false} SelectMembers(jobs: seq<BackupJob>, category: Option<string>, name: Option<string>)
    ensures forall j :: j in Select(jobs, category, name) <==> j in jobs && Selected(j, category, name)
  {
    if jobs != [] {
      var n := |jobs| - 1;
      SelectMembers(jobs[..n], category, name);
      assert jobs == jobs[..n] + [jobs[n]];
      forall j ensures j in jobs <==> j in jobs[..n] || j == jobs[n] {
      }
    }
  }

  /** Without filters, or with empty-string filters, every job is selected,
      in order. */
  lemma {:induction false} NoFilterSelectsAll(jobs: seq<BackupJob>, category: Option<string>, name: Option<string>)
    requires category.None? || category == Some("")
    requires name.None? || name == Some("")
    ensures Select(jobs, category, name) == jobs
  {
    if jobs != [] {
      NoFilterSelectsAll(jobs[..|jobs| - 1], category, name);
      assert jobs == jobs[..|jobs| - 1] + [jobs[|jobs| - 1]];
    }
  }

  /** A non-empty filter lets through exactly the value it names. */
  lemma FilterIsEquality(filter: string, v: string)
    requires filter != ""
    ensures Matches(Some(filter), v) <==> v == filter
  {
  }

  /** `run_all` gives at most one outcome per selected job, and one for
      each of them unless one raises, in which case that one is the last
      outcome and every earlier one is normal. */
  lemma {:induction false} RunJobsStops(js: seq<BackupJob>, exec: (BackupJob, nat) -> JobRun, start: nat)
    ensures var rs := RunJobs(js, exec, start);
      && |rs.outcomes| <= |js|
      && (!Stopped(rs) ==> |rs.outcomes| == |js|)
      && (forall i :: 0 <= i < |rs.outcomes| - 1 ==> !rs.outcomes[i].Raised?)
      && (js != [] ==> |rs.outcomes| > 0)
  {
    if js != [] {
      var n := |js| - 1;
      RunJobsStops(js[..n], exec, start);
      var prev := RunJobs(js[..n], exec, start);
      if !Stopped(prev) {
        var r := exec(js[n], start + |prev.trace|);
        var rs := RunJobs(js, exec, start);
        assert rs.outcomes == prev.outcomes + [r.outcome];
        forall i | 0 <= i < |rs.outcomes| - 1 ensures !rs.outcomes[i].Raised? {
          assert rs.outcomes[i] == prev.outcomes[i];
          if i == |prev.outcomes| - 1 {
            assert !Stopped(prev);
          }
        }
      }
    }
  }

  /** The first selected job runs first, from the starting log position. */
  lemma {:induction false} RunJobsFirst(js: seq<BackupJob>, exec: (BackupJob, nat) -> JobRun, start: nat)
    requires js != []
    ensures var rs := RunJobs(js, exec, start);
      var first := exec(js[0], start);
      |rs.outcomes| > 0 && rs.outcomes[0] == first.outcome &&
      |first.trace| <= |rs.trace| && rs.trace[..|first.trace|] == first.trace
  {
    var n := |js| - 1;
    if n == 0 {
      assert js[..n] == [];
    } else {
      assert js[..n][0] == js[0];
      RunJobsFirst(js[..n], exec, start);
      var prev := RunJobs(js[..n], exec, start);
      var first := exec(js[0], start);
      if !Stopped(prev) {
        var rs := RunJobs(js, exec, start);
        assert rs.trace[..|prev.trace|] == prev.trace;
        assert rs.trace[..|first.trace|] == prev.trace[..|first.trace|];
      }
    }
  }
}
