/** Running a command with sudo: `run_with_sudo` as written, and the
    command runner the rest of the model uses, which issues the command
    itself and raises when it exits with a non-zero status (check=True). */
module Sudo {
  import opened Results
  import opened Shell

  /** `run_with_sudo` as written: with a password (a non-empty string) the
      argv handed to subprocess is `echo <password>` followed by the words
      of the intended command. */
  function SudoArgv(cmd: Argv, password: Option<string>): (r: Argv)
    ensures password.Some? && password.value != "" ==> |r| == |cmd| + 2 && r[..2] == ["echo", password.value] && r[2..] == cmd
    ensures password.None? || password.value == "" ==> r == cmd
  {
    if password.Some? && password.value != "" then ["echo", password.value] + cmd else cmd
  }

  /** An `echo` changes no mount: whatever it prints, the mount table stays
      as it was. */
  lemma EchoChangesNothing(fs: MountTable, cmd: Argv, password: string)
    requires password != ""
    ensures Effect(fs, SudoArgv(cmd, Some(password))) == fs
  {
    var c := SudoArgv(cmd, Some(password));
    assert c[0] == c[..2][0] == "echo";
  }

  /** The result of a command run with check=True. */
  function Checked(cmd: Argv, ok: bool): Outcome
  {
    if ok then Pass else Fail(CommandFailed(cmd))
  }

  /** The command the caller means, issued as is; a non-zero exit raises. */
  method RunWithSudo(cmd: Argv, host: Host) returns (r: Outcome)
    modifies host
    ensures host.log == old(host.log) + [cmd]
    ensures r == Checked(cmd, host.succeeds(|old(host.log)|, cmd))
  {
    var ok := host.Run(cmd);
    r := Checked(cmd, ok);
  }

  /** The commands issued and how a run of them ended. */
  datatype Run = Run(trace: seq<Argv>, outcome: Outcome)

  /** Commands run one after the other with check=True from log position
      `start`, stopping at the first that fails. */
  function CheckedRun(cmds: seq<Argv>, succeeds: (nat, Argv) -> bool, start: nat): Run
  {
    if cmds == [] then Run([], Pass)
    else
      var n := |cmds| - 1;
      var prev := CheckedRun(cmds[..n], succeeds, start);
      if prev.outcome.Fail? then prev
      else Run(prev.trace + [cmds[n]], Checked(cmds[n], succeeds(start + n, cmds[n])))
  }

  /** When every command succeeds, a checked run issues them all and
      passes. */
  lemma {:induction false} CheckedRunAllSucceed(cmds: seq<Argv>, succeeds: (nat, Argv) -> bool, start: nat)
    requires forall i :: 0 <= i < |cmds| ==> succeeds(start + i, cmds[i])
    ensures CheckedRun(cmds, succeeds, start) == Run(cmds, Pass)
  {
    if cmds != [] {
      var n := |cmds| - 1;
      var pre := cmds[..n];
      forall i | 0 <= i < |pre| ensures succeeds(start + i, pre[i]) {
        assert pre[i] == cmds[i];
      }
      CheckedRunAllSucceed(pre, succeeds, start);
      assert succeeds(start + n, cmds[n]);
      assert pre + [cmds[n]] == cmds;
    }
  }

  /** When command k is the first to fail, a checked run issues the
      commands up to and including it and raises its failure. */
  lemma {:induction false} CheckedRunStopsAt(cmds: seq<Argv>, succeeds: (nat, Argv) -> bool, start: nat, k: nat)
    requires k < |cmds| && !succeeds(start + k, cmds[k])
    requires forall i :: 0 <= i < k ==> succeeds(start + i, cmds[i])
    ensures CheckedRun(cmds, succeeds, start) == Run(cmds[..k + 1], Fail(CommandFailed(cmds[k])))
    decreases |cmds|
  {
    var n := |cmds| - 1;
    forall i | 0 <= i < k ensures succeeds(start + i, cmds[..n][i]) {
      assert cmds[..n][i] == cmds[i];
    }
    if k == n {
      CheckedRunAllSucceed(cmds[..n], succeeds, start);
      TakeSnoc(cmds, n);
    } else {
      assert cmds[..n][k] == cmds[k];
      CheckedRunStopsAt(cmds[..n], succeeds, start, k);
      TakeTake(cmds, k + 1, n);
    }
  }

  /** Two commands in a row: the second runs only when the first succeeded. */
  lemma CheckedPair(a: Argv, b: Argv, succeeds: (nat, Argv) -> bool, start: nat)
    ensures CheckedRun([a, b], succeeds, start) ==
      if !succeeds(start, a) then Run([a], Fail(CommandFailed(a)))
      else Run([a, b], Checked(b, succeeds(start + 1, b)))
  {
    assert [a, b][..1] == [a];
    assert [a][..0] == [];
    assert CheckedRun([a], succeeds, start) == Run([a], Checked(a, succeeds(start, a)));
  }

  /** Three commands in a row, each run only when the ones before it
      succeeded. */
  lemma CheckedTriple(a: Argv, b: Argv, c: Argv, succeeds: (nat, Argv) -> bool, start: nat)
    ensures CheckedRun([a, b, c], succeeds, start) ==
      if !succeeds(start, a) then Run([a], Fail(CommandFailed(a)))
      else if !succeeds(start + 1, b) then Run([a, b], Fail(CommandFailed(b)))
      else Run([a, b, c], Checked(c, succeeds(start + 2, c)))
  {
    assert [a, b, c][..2] == [a, b];
    CheckedPair(a, b, succeeds, start);
  }
}
