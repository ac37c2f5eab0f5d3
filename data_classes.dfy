/** A backup job as the orchestration builds it: the script it runs, the
    token/config-key pairs that become the script's arguments, the job's
    config table and its repositories; and the argument vectors built from
    them. */
module BackupJobs {
  import opened Results
  import opened PyValues
  import opened Shell
  import Dispatch
  import Repos

  datatype TokenConfigKeyPair = TokenConfigKeyPair(token: string, configKey: string)

  /** `TokenConfigKeyPair.from_token_key_map`: one pair per map entry, in map order. */
  function FromTokenKeyMap(m: Dispatch.TokenKeyMap): (r: seq<TokenConfigKeyPair>)
    ensures |r| == |m| && forall i :: 0 <= i < |m| ==> r[i].token == m[i].0 && r[i].configKey == m[i].1
  {
    seq(|m|, i requires 0 <= i < |m| => TokenConfigKeyPair(m[i].0, m[i].1))
  }

  function PairTokens(pairs: seq<TokenConfigKeyPair>): (r: seq<string>)
    ensures |r| == |pairs| && forall i :: 0 <= i < |pairs| ==> r[i] == pairs[i].token
  {
    seq(|pairs|, i requires 0 <= i < |pairs| => pairs[i].token)
  }

  /** The pairs keep the map's tokens and keys: the map can be rebuilt from them. */
  lemma FromTokenKeyMapInverse(m: Dispatch.TokenKeyMap)
    ensures var pairs := FromTokenKeyMap(m);
      seq(|pairs|, i requires 0 <= i < |pairs| => (pairs[i].token, pairs[i].configKey)) == m
    ensures PairTokens(FromTokenKeyMap(m)) == Dispatch.Tokens(m)
  {
  }

  datatype BackupJob = BackupJob(
    scriptName: string,
    pairs: seq<TokenConfigKeyPair>,
    config: Mapping,
    name: string,
    category: string,
    repositories: seq<Repos.ResticRepo>,
    dryRun: bool)

  // ---------------------------------------------------------------------
  // get_arg_entry, args_list, get_args_list_for_repo.

  /** The argument text of a config value: a list of strings joined with
      spaces, a bool as "true"/"false", a string as itself, an int in
      decimal; None for a dict or a list holding a non-string. */
  function ArgValue(v: Value): Option<string>
  {
    match v
    case List(items) =>
      (match Strings(items)
       case None => None
       case Some(ss) => Some(JoinWith(" ", ss)))
    case Str(s) => Some(s)
    case Bool(b) => Some(if b then "true" else "false")
    case Int(i) => Some(IntToString(i))
    case Dict(_) => None
  }

  /** `get_arg_entry`: the token followed by the text of its config value. */
  function ArgEntry(config: Mapping, pair: TokenConfigKeyPair): (r: Result<seq<string>>)
    ensures r.Ok? ==> |r.value| == 2 && r.value[0] == pair.token
    ensures !HasKey(config, pair.configKey) ==> r == Err(MissingKey(pair.configKey))
  {
    match Get(config, pair.configKey)
    case None => Err(MissingKey(pair.configKey))
    case Some(v) =>
      match ArgValue(v)
      case None => Err(WrongType(pair.configKey))
      case Some(s) => Ok([pair.token, s])
  }

  /** What get_arg_entry yields for each kind of value. */
  lemma ArgEntryByType(config: Mapping, pair: TokenConfigKeyPair, v: Value)
    requires Get(config, pair.configKey) == Some(v)
    ensures v.Str? ==> ArgEntry(config, pair) == Ok([pair.token, v.s])
    ensures v.Bool? ==> ArgEntry(config, pair) == Ok([pair.token, if v.b then "true" else "false"])
    ensures v.Int? ==>
      ArgEntry(config, pair) == Ok([pair.token, IntToString(v.i)]) && ParseInt(ArgEntry(config, pair).value[1]) == Some(v.i)
    ensures v.List? && (forall k :: 0 <= k < |v.items| ==> v.items[k].Str?) ==>
      ArgEntry(config, pair) == Ok([pair.token, JoinWith(" ", Strings(v.items).value)])
    ensures v.List? && (exists k :: 0 <= k < |v.items| && !v.items[k].Str?) ==>
      ArgEntry(config, pair) == Err(WrongType(pair.configKey))
    ensures v.Dict? ==> ArgEntry(config, pair) == Err(WrongType(pair.configKey))
  {
    if v.Int? {
      ParseIntRoundTrip(v.i);
    }
  }

  /** `args_list`: the entries of all pairs, in order; the first failing
      entry decides the error. */
  function ArgsOf(config: Mapping, pairs: seq<TokenConfigKeyPair>): Result<seq<string>>
  {
    if pairs == [] then Ok([])
    else
      match ArgsOf(config, pairs[..|pairs| - 1])
      case Err(e) => Err(e)
      case Ok(done) =>
        match ArgEntry(config, pairs[|pairs| - 1])
        case Err(e) => Err(e)
        case Ok(entry) => Ok(done + entry)
  }

  lemma {:induction false} ArgsErrSticks(config: Mapping, pairs: seq<TokenConfigKeyPair>, i: nat)
    requires i <= |pairs| && ArgsOf(config, pairs[..i]).Err?
    ensures ArgsOf(config, pairs) == ArgsOf(config, pairs[..i])
    decreases |pairs| - i
  {
    if i < |pairs| {
      assert pairs[..i + 1][..i] == pairs[..i];
      ArgsErrSticks(config, pairs, i + 1);
    } else {
      assert pairs[..i] == pairs;
    }
  }

  /** The argument list succeeds exactly when every entry does; it then has
      two elements per pair: the pair's token, then its value's text. */
  lemma {:induction false} ArgsOfShape(config: Mapping, pairs: seq<TokenConfigKeyPair>)
    ensures ArgsOf(config, pairs).Ok? <==> forall i :: 0 <= i < |pairs| ==> ArgEntry(config, pairs[i]).Ok?
    ensures ArgsOf(config, pairs).Ok? ==>
      |ArgsOf(config, pairs).value| == 2 * |pairs| &&
      forall i :: 0 <= i < |pairs| ==>
        ArgsOf(config, pairs).value[2 * i] == pairs[i].token &&
        ArgsOf(config, pairs).value[2 * i + 1] == ArgEntry(config, pairs[i]).value[1]
  {
    if pairs != [] {
      var n := |pairs| - 1;
      var pre := pairs[..n];
      ArgsOfShape(config, pre);
      assert forall i :: 0 <= i < n ==> pre[i] == pairs[i];
      if ArgsOf(config, pairs).Ok? {
        var done := ArgsOf(config, pre).value;
        var entry := ArgEntry(config, pairs[n]).value;
        var all := done + entry;
        assert all[2 * n] == pairs[n].token;
        forall i | 0 <= i < n
          ensures all[2 * i] == pairs[i].token && all[2 * i + 1] == ArgEntry(config, pairs[i]).value[1]
        {
          assert all[2 * i] == done[2 * i] && all[2 * i + 1] == done[2 * i + 1];
        }
      }
    }
  }

  /** The `args_list` loop. */
  method ArgsList(job: BackupJob) returns (r: Result<seq<string>>)
    ensures r == ArgsOf(job.config, job.pairs)
  {
    var args: seq<string> := [];
    var i := 0;
    while i < |job.pairs|
      invariant 0 <= i <= |job.pairs|
      invariant ArgsOf(job.config, job.pairs[..i]) == Ok(args)
    {
      assert job.pairs[..i + 1][..i] == job.pairs[..i];
      var entry := ArgEntry(job.config, job.pairs[i]);
      if entry.Err? {
        ArgsErrSticks(job.config, job.pairs, i + 1);
        return Err(entry.error);
      }
      args := args + entry.value;
      i := i + 1;
    }
    assert job.pairs[..i] == job.pairs;
    r := Ok(args);
  }

  predicate IsRepoToken(t: string)
  {
    t == "-r" || t == "-p"
  }

  /** The pairs get_args_list_for_repo keeps: all but "-r" and "-p", in order. */
  function WithoutRepoTokens(pairs: seq<TokenConfigKeyPair>): (r: seq<TokenConfigKeyPair>)
    ensures |r| <= |pairs|
  {
    if pairs == [] then []
    else
      var rest := WithoutRepoTokens(pairs[..|pairs| - 1]);
      if IsRepoToken(pairs[|pairs| - 1].token) then rest else rest + [pairs[|pairs| - 1]]
  }

  /** A pair survives the filter exactly when its token is not a repository
      token; so no repository token is left, and a list without one is kept whole. */
  lemma {:induction false} WithoutRepoTokensMembers(pairs: seq<TokenConfigKeyPair>)
    ensures forall p :: p in WithoutRepoTokens(pairs) <==> p in pairs && !IsRepoToken(p.token)
    ensures forall i :: 0 <= i < |WithoutRepoTokens(pairs)| ==> !IsRepoToken(WithoutRepoTokens(pairs)[i].token)
    ensures (forall i :: 0 <= i < |pairs| ==> !IsRepoToken(pairs[i].token)) ==> WithoutRepoTokens(pairs) == pairs
  {
    if pairs != [] {
      var pre := pairs[..|pairs| - 1];
      WithoutRepoTokensMembers(pre);
      assert pairs == pre + [pairs[|pairs| - 1]];
      assert forall i :: 0 <= i < |pre| ==> pre[i] == pairs[i];
    }
  }

  /** `get_args_list_for_repo`: the arguments of every other pair, then the
      repository and its password file. */
  function RepoArgsOf(config: Mapping, pairs: seq<TokenConfigKeyPair>, repo: Repos.ResticRepo): Result<seq<string>>
  {
    match ArgsOf(config, WithoutRepoTokens(pairs))
    case Err(e) => Err(e)
    case Ok(args) => Ok(args + ["-r", repo.repoPath, "-p", repo.passwordFile])
  }

  /** The repository arguments come last and come once: no earlier token
      position holds "-r" or "-p". */
  lemma RepoArgsShape(config: Mapping, pairs: seq<TokenConfigKeyPair>, repo: Repos.ResticRepo)
    requires RepoArgsOf(config, pairs, repo).Ok?
    ensures var a := RepoArgsOf(config, pairs, repo).value;
      |a| >= 4 && a[|a| - 4..] == ["-r", repo.repoPath, "-p", repo.passwordFile] &&
      |a| == 2 * |WithoutRepoTokens(pairs)| + 4 &&
      forall i :: 0 <= i < |WithoutRepoTokens(pairs)| ==> !IsRepoToken(a[2 * i])
  {
    var kept := WithoutRepoTokens(pairs);
    WithoutRepoTokensMembers(pairs);
    ArgsOfShape(config, kept);
    var args := ArgsOf(config, kept).value;
    var a := args + ["-r", repo.repoPath, "-p", repo.passwordFile];
    assert a[|a| - 4..] == ["-r", repo.repoPath, "-p", repo.passwordFile];
    forall i | 0 <= i < |kept| ensures !IsRepoToken(a[2 * i]) {
      assert a[2 * i] == args[2 * i] == kept[i].token;
    }
  }

  /** The `get_args_list_for_repo` loop. */
  method GetArgsListForRepo(job: BackupJob, repo: Repos.ResticRepo) returns (r: Result<seq<string>>)
    ensures r == RepoArgsOf(job.config, job.pairs, repo)
  {
    var args: seq<string> := [];
    var i := 0;
    while i < |job.pairs|
      invariant 0 <= i <= |job.pairs|
      invariant ArgsOf(job.config, WithoutRepoTokens(job.pairs[..i])) == Ok(args)
    {
      assert job.pairs[..i + 1][..i] == job.pairs[..i];
      var pair := job.pairs[i];
      if IsRepoToken(pair.token) {
        i := i + 1;
        continue;
      }
      var kept := WithoutRepoTokens(job.pairs[..i + 1]);
      assert kept == WithoutRepoTokens(job.pairs[..i]) + [pair];
      assert kept[..|kept| - 1] == WithoutRepoTokens(job.pairs[..i]);
      var entry := ArgEntry(job.config, pair);
      if entry.Err? {
        ArgsOfPrefixErr(job.config, job.pairs, i + 1);
        return Err(entry.error);
      }
      args := args + entry.value;
      i := i + 1;
    }
    assert job.pairs[..i] == job.pairs;
    r := Ok(args + ["-r", repo.repoPath, "-p", repo.passwordFile]);
  }

  lemma {:induction false} WithoutRepoTokensPrefix(pairs: seq<TokenConfigKeyPair>, i: nat)
    requires i <= |pairs|
    ensures |WithoutRepoTokens(pairs[..i])| <= |WithoutRepoTokens(pairs)|
    ensures WithoutRepoTokens(pairs)[..|WithoutRepoTokens(pairs[..i])|] == WithoutRepoTokens(pairs[..i])
    decreases |pairs| - i
  {
    if i < |pairs| {
      WithoutRepoTokensPrefix(pairs, i + 1);
      assert pairs[..i + 1][..i] == pairs[..i];
    } else {
      assert pairs[..i] == pairs;
    }
  }

  lemma ArgsOfPrefixErr(config: Mapping, pairs: seq<TokenConfigKeyPair>, i: nat)
    requires i <= |pairs| && ArgsOf(config, WithoutRepoTokens(pairs[..i])).Err?
    ensures ArgsOf(config, WithoutRepoTokens(pairs)) == ArgsOf(config, WithoutRepoTokens(pairs[..i]))
  {
    WithoutRepoTokensPrefix(pairs, i);
    ArgsErrSticks(config, WithoutRepoTokens(pairs), |WithoutRepoTokens(pairs[..i])|);
  }

  /** With the standard-path map the repository tokens are dropped and the
      source and exclude arguments remain, in that order. */
  lemma StandardPathRepoPairs()
    ensures WithoutRepoTokens(FromTokenKeyMap(Dispatch.StandardPathTokenKeyMap)) ==
      [TokenConfigKeyPair("-s", "backup_source_path"), TokenConfigKeyPair("-e", "exclude_paths")]
  {
    var pairs := FromTokenKeyMap(Dispatch.StandardPathTokenKeyMap);
    assert pairs == [TokenConfigKeyPair("-r", "restic_repo"), TokenConfigKeyPair("-p", "restic_password_file"),
                     TokenConfigKeyPair("-s", "backup_source_path"), TokenConfigKeyPair("-e", "exclude_paths")];
    assert pairs[..1][..0] == [];
    assert WithoutRepoTokens(pairs[..1]) == [];
    assert pairs[..2][..1] == pairs[..1];
    assert WithoutRepoTokens(pairs[..2]) == [];
    assert pairs[..3][..2] == pairs[..2];
    assert WithoutRepoTokens(pairs[..3]) == [pairs[2]];
    assert pairs[..3] == pairs[..|pairs| - 1];
  }

  // ---------------------------------------------------------------------
  // script_path, cmd, get_cmd_for_repo.

  /** `pkg_resources.files(scripts) / script_name`, the scripts directory
      being a parameter. */
  function ScriptPath(scriptsDir: string, scriptName: string): string
  {
    PosixJoin(scriptsDir, scriptName)
  }

  /** `cmd`: bash, the script, then the argument list. */
  function Cmd(job: BackupJob, scriptsDir: string): (r: Result<Argv>)
    ensures r.Ok? <==> ArgsOf(job.config, job.pairs).Ok?
    ensures r.Ok? ==>
      |r.value| >= 2 && r.value[..2] == ["bash", ScriptPath(scriptsDir, job.scriptName)] &&
      r.value[2..] == ArgsOf(job.config, job.pairs).value
  {
    match ArgsOf(job.config, job.pairs)
    case Err(e) => Err(e)
    case Ok(args) => Ok(["bash", ScriptPath(scriptsDir, job.scriptName)] + args)
  }

  /** `get_cmd_for_repo`: bash, the script, then the repository's argument list. */
  function CmdForRepo(job: BackupJob, scriptsDir: string, repo: Repos.ResticRepo): (r: Result<Argv>)
    ensures r.Ok? <==> RepoArgsOf(job.config, job.pairs, repo).Ok?
    ensures r.Ok? ==>
      |r.value| >= 2 && r.value[..2] == ["bash", ScriptPath(scriptsDir, job.scriptName)] &&
      r.value[2..] == RepoArgsOf(job.config, job.pairs, repo).value
  {
    match RepoArgsOf(job.config, job.pairs, repo)
    case Err(e) => Err(e)
    case Ok(args) => Ok(["bash", ScriptPath(scriptsDir, job.scriptName)] + args)
  }

  /** A command has 2 + 2n elements for n pairs, and its repository variant
      has the same shape with the repository arguments at the end. */
  lemma CmdShape(job: BackupJob, scriptsDir: string, repo: Repos.ResticRepo)
    ensures Cmd(job, scriptsDir).Ok? ==> |Cmd(job, scriptsDir).value| == 2 + 2 * |job.pairs|
    ensures CmdForRepo(job, scriptsDir, repo).Ok? ==>
      var c := CmdForRepo(job, scriptsDir, repo).value;
      |c| >= 6 && c[|c| - 4..] == ["-r", repo.repoPath, "-p", repo.passwordFile]
  {
    ArgsOfShape(job.config, job.pairs);
    if CmdForRepo(job, scriptsDir, repo).Ok? {
      RepoArgsShape(job.config, job.pairs, repo);
      var a := RepoArgsOf(job.config, job.pairs, repo).value;
      var c := ["bash", ScriptPath(scriptsDir, job.scriptName)] + a;
      assert c[|c| - 4..] == a[|a| - 4..];
    }
  }
}
