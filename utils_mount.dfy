/** Remounting a mounted path read-only or read-write, and the context
    manager that keeps a path read-only while a body runs and always tries
    to make it read-write again. The mount table is the host's, as the
    commands that succeeded left it. */
module Mounts {
  import opened Results
  import opened Shell
  import opened Sudo

  /** The mount table of the host now. */
  function MountsOf(host: Host): MountTable
    reads host
  {
    Replay(host.initialFs, host.log, host.succeeds)
  }

  /** Commands issued one after another from log position `start`, each
      changing the table when it succeeds. */
  function RunFrom(fs: MountTable, cmds: seq<Argv>, succeeds: (nat, Argv) -> bool, start: nat): MountTable
  {
    if cmds == [] then fs
    else
      var n := |cmds| - 1;
      var before := RunFrom(fs, cmds[..n], succeeds, start);
      if succeeds(start + n, cmds[n]) then Effect(before, cmds[n]) else before
  }

  /** What a remount, the context manager or one of its parts does: the
      commands issued, how it ends, and the mount table it leaves. */
  datatype Step = Step(trace: seq<Argv>, outcome: Outcome, fs: MountTable)

  /** The two checks `remount_readonly` and `remount_rw` make, in order. */
  function Guard(fs: MountTable, path: string): Outcome
  {
    if path !in fs then Fail(NotFound(path))
    else if !IsMountPoint(fs, path) then Fail(NotAMountPoint(path))
    else Pass
  }

  /** `remount_readonly` (mode "ro") and `remount_rw` (mode "rw"): the
      checks, then the remount command, which raises when it fails. */
  function RemountSpec(fs: MountTable, mode: string, path: string, succeeds: (nat, Argv) -> bool, start: nat): Step
  {
    if Guard(fs, path).Fail? then Step([], Guard(fs, path), fs)
    else
      var c := RemountArgv(mode, path);
      Step([c], Checked(c, succeeds(start, c)), if succeeds(start, c) then Effect(fs, c) else fs)
  }

  /** What `temporary_remount_readonly` does once the read-only remount
      ended with `ro`: the body runs only if that remount returned; the
      read-write remount of the finally block always runs, and an exception
      it raises replaces the one in flight. */
  function Finish(fs: MountTable, path: string, body: seq<Argv>, bodyRaises: bool, ro: Outcome,
                  succeeds: (nat, Argv) -> bool, start: nat): Step
  {
    var bodyTrace := if ro.Pass? then body else [];
    var bodyFs := if ro.Pass? then RunFrom(fs, body, succeeds, start) else fs;
    var inner := if ro.Fail? then ro else if bodyRaises then Fail(BodyRaised) else Pass;
    var rw := RemountSpec(bodyFs, "rw", path, succeeds, start + |bodyTrace|);
    Step(bodyTrace + rw.trace, if rw.outcome.Fail? then rw.outcome else inner, rw.fs)
  }

  /** `temporary_remount_readonly` around a body that issues `body` and
      then raises when `bodyRaises`. */
  function TemporarySpec(fs: MountTable, path: string, body: seq<Argv>, bodyRaises: bool,
                         succeeds: (nat, Argv) -> bool, start: nat): Step
  {
    var ro := RemountSpec(fs, "ro", path, succeeds, start);
    var rest := Finish(ro.fs, path, body, bodyRaises, ro.outcome, succeeds, start + |ro.trace|);
    Step(ro.trace + rest.trace, rest.outcome, rest.fs)
  }

  // ---------------------------------------------------------------------
  // The operations on the host.

  /** The shared body of `remount_readonly` and `remount_rw`. */
  method Remount(mode: string, path: string, host: Host) returns (r: Outcome)
    modifies host
    ensures var s := RemountSpec(old(MountsOf(host)), mode, path, host.succeeds, |old(host.log)|);
      host.log == old(host.log) + s.trace && r == s.outcome && MountsOf(host) == s.fs
  {
    var fs := MountsOf(host);
    if path !in fs {
      return Fail(NotFound(path));
    }
    if !IsMountPoint(fs, path) {
      return Fail(NotAMountPoint(path));
    }
    var c := RemountArgv(mode, path);
    ghost var log0 := host.log;
    r := RunWithSudo(c, host);
    ReplaySnoc(host.initialFs, log0, c, host.succeeds);
  }

  method RemountReadonly(path: string, host: Host) returns (r: Outcome)
    modifies host
    ensures var s := RemountSpec(old(MountsOf(host)), "ro", path, host.succeeds, |old(host.log)|);
      host.log == old(host.log) + s.trace && r == s.outcome && MountsOf(host) == s.fs
  {
    r := Remount("ro", path, host);
  }

  method RemountRw(path: string, host: Host) returns (r: Outcome)
    modifies host
    ensures var s := RemountSpec(old(MountsOf(host)), "rw", path, host.succeeds, |old(host.log)|);
      host.log == old(host.log) + s.trace && r == s.outcome && MountsOf(host) == s.fs
  {
    r := Remount("rw", path, host);
  }

  /** The body of the with-block: its commands, issued in order. */
  method RunBody(body: seq<Argv>, host: Host)
    modifies host
    ensures host.log == old(host.log) + body
    ensures MountsOf(host) == RunFrom(old(MountsOf(host)), body, host.succeeds, |old(host.log)|)
  {
    ghost var log0 := host.log;
    ghost var fs0 := MountsOf(host);
    var k := 0;
    while k < |body|
      invariant 0 <= k <= |body|
      invariant host.log == log0 + body[..k]
      invariant MountsOf(host) == RunFrom(fs0, body[..k], host.succeeds, |log0|)
    {
      var ok := host.Run(body[k]);
      BodyStep(host.initialFs, log0, body, k, host.succeeds, fs0);
      k := k + 1;
    }
    assert body[..k] == body;
  }

  /** The with-block and the finally block, after the read-only remount
      ended with `ro`. */
  method BodyThenReadWrite(path: string, body: seq<Argv>, bodyRaises: bool, ro: Outcome, host: Host)
    returns (r: Outcome)
    modifies host
    ensures var s := Finish(old(MountsOf(host)), path, body, bodyRaises, ro, host.succeeds, |old(host.log)|);
      host.log == old(host.log) + s.trace && r == s.outcome && MountsOf(host) == s.fs
  {
    ghost var log0 := host.log;
    ghost var fs0 := MountsOf(host);
    ghost var bodyTrace: seq<Argv> := [];
    var inner := ro;
    if ro.Pass? {
      RunBody(body, host);
      bodyTrace := body;
      inner := if bodyRaises then Fail(BodyRaised) else Pass;
    }
    ghost var log1 := host.log;
    ghost var fs1 := MountsOf(host);
    assert log1 == log0 + bodyTrace;
    assert fs1 == if ro.Pass? then RunFrom(fs0, body, host.succeeds, |log0|) else fs0;
    assert inner == if ro.Fail? then ro else if bodyRaises then Fail(BodyRaised) else Pass;
    ghost var rwStep := RemountSpec(fs1, "rw", path, host.succeeds, |log1|);
    assert Finish(fs0, path, body, bodyRaises, ro, host.succeeds, |log0|) ==
      Step(bodyTrace + rwStep.trace, if rwStep.outcome.Fail? then rwStep.outcome else inner, rwStep.fs);
    var rw := RemountRw(path, host);
    assert host.log == log1 + rwStep.trace && rw == rwStep.outcome && MountsOf(host) == rwStep.fs;
    AppendAssoc(log0, bodyTrace, rwStep.trace);
    r := if rw.Fail? then rw else inner;
  }

  method TemporaryRemountReadonly(path: string, body: seq<Argv>, bodyRaises: bool, host: Host) returns (r: Outcome)
    modifies host
    ensures var s := TemporarySpec(old(MountsOf(host)), path, body, bodyRaises, host.succeeds, |old(host.log)|);
      host.log == old(host.log) + s.trace && r == s.outcome && MountsOf(host) == s.fs
  {
    ghost var log0 := host.log;
    var ro := RemountReadonly(path, host);
    ghost var log1 := host.log;
    r := BodyThenReadWrite(path, body, bodyRaises, ro, host);
    AppendAssoc(log0, log1[|log0|..], host.log[|log1|..]);
  }

  // ---------------------------------------------------------------------
  // Helpers for the loops.

  /** The mount table after more commands is the table the earlier ones
      left, run on by the new ones. */
  lemma {:induction false} ReplayAppend(fs: MountTable, log: seq<Argv>, cmds: seq<Argv>, succeeds: (nat, Argv) -> bool)
    ensures Replay(fs, log + cmds, succeeds) == RunFrom(Replay(fs, log, succeeds), cmds, succeeds, |log|)
  {
    if cmds == [] {
      assert log + cmds == log;
    } else {
      var n := |cmds| - 1;
      ReplayAppend(fs, log, cmds[..n], succeeds);
      assert log + cmds == (log + cmds[..n]) + [cmds[n]];
      ReplaySnoc(fs, log + cmds[..n], cmds[n], succeeds);
    }
  }

  lemma BodyStep(fs: MountTable, log0: seq<Argv>, body: seq<Argv>, k: nat, succeeds: (nat, Argv) -> bool,
                 fs0: MountTable)
    requires k < |body| && fs0 == Replay(fs, log0, succeeds)
    ensures (log0 + body[..k]) + [body[k]] == log0 + body[..k + 1]
    ensures Replay(fs, log0 + body[..k + 1], succeeds) == RunFrom(fs0, body[..k + 1], succeeds, |log0|)
  {
    assert body[..k + 1] == body[..k] + [body[k]];
    AppendAssoc(log0, body[..k], [body[k]]);
    ReplayAppend(fs, log0, body[..k + 1], succeeds);
  }

  // ---------------------------------------------------------------------
  // What the remount operations promise.

  /** The checks come first and in order: a missing path is not found, an
      existing path that is not a mount point is refused, and in either case
      no command is issued and nothing changes. A command is issued exactly
      when the path is a mount point. */
  lemma ChecksBeforeCommand(fs: MountTable, mode: string, path: string, succeeds: (nat, Argv) -> bool, start: nat)
    ensures var s := RemountSpec(fs, mode, path, succeeds, start);
      && (s.trace != [] <==> IsMountPoint(fs, path))
      && (path !in fs ==> s == Step([], Fail(NotFound(path)), fs))
      && (path in fs && fs[path] == NotMounted ==> s == Step([], Fail(NotAMountPoint(path)), fs))
  {
  }

  /** On a mount point exactly one remount command is issued; when it
      succeeds the path takes the mode and no other entry changes, when it
      fails it raises and nothing changes. */
  lemma RemountSetsMode(fs: MountTable, path: string, succeeds: (nat, Argv) -> bool, start: nat)
    requires IsMountPoint(fs, path)
    ensures var ro := RemountSpec(fs, "ro", path, succeeds, start);
      && ro.trace == [["mount", "-o", "remount,ro", path]]
      && (succeeds(start, RemountArgv("ro", path)) ==> ro.outcome == Pass && ro.fs == fs[path := MountedRo])
      && (!succeeds(start, RemountArgv("ro", path)) ==>
            ro.outcome == Fail(CommandFailed(RemountArgv("ro", path))) && ro.fs == fs)
    ensures var rw := RemountSpec(fs, "rw", path, succeeds, start);
      && rw.trace == [["mount", "-o", "remount,rw", path]]
      && (succeeds(start, RemountArgv("rw", path)) ==> rw.outcome == Pass && rw.fs == fs[path := MountedRw])
      && (!succeeds(start, RemountArgv("rw", path)) ==>
            rw.outcome == Fail(CommandFailed(RemountArgv("rw", path))) && rw.fs == fs)
  {
    EffectRemount(fs, path);
    assert "remount," + "ro" == "remount,ro";
    assert "remount," + "rw" == "remount,rw";
  }

  /** A read-only remount followed by a read-write one, both succeeding,
      leaves the path read-write: a path that started read-write is back
      where it was. */
  lemma ReadOnlyThenReadWrite(fs: MountTable, path: string, succeeds: (nat, Argv) -> bool, start: nat)
    requires IsMountPoint(fs, path)
    requires succeeds(start, RemountArgv("ro", path)) && succeeds(start + 1, RemountArgv("rw", path))
    ensures var ro := RemountSpec(fs, "ro", path, succeeds, start);
      var rw := RemountSpec(ro.fs, "rw", path, succeeds, start + 1);
      && MountedAs(ro.fs, path, MountedRo)
      && rw.outcome == Pass && rw.fs == fs[path := MountedRw]
      && (fs[path] == MountedRw ==> rw.fs == fs)
  {
    EffectRemount(fs, path);
    EffectRemount(fs[path := MountedRo], path);
    assert fs[path := MountedRo][path := MountedRw] == fs[path := MountedRw];
  }

  /** For a path that is missing or not a mount point the context manager
      issues no command at all and the body never runs: the read-only
      remount refuses, and so does the read-write remount of the finally
      block, whose error is the one raised. */
  lemma TemporaryRefusesNonMountPoint(fs: MountTable, path: string, body: seq<Argv>, bodyRaises: bool,
                                      succeeds: (nat, Argv) -> bool, start: nat)
    requires !IsMountPoint(fs, path)
    ensures TemporarySpec(fs, path, body, bodyRaises, succeeds, start) == Step([], Guard(fs, path), fs)
    ensures Guard(fs, path) == if path !in fs then Fail(NotFound(path)) else Fail(NotAMountPoint(path))
  {
  }

  /** Commands that do not end in the path leave its entry as it was. */
  lemma {:induction false} RunFromKeeps(fs: MountTable, cmds: seq<Argv>, succeeds: (nat, Argv) -> bool, start: nat,
                                        path: string)
    requires path in fs
    requires forall k :: 0 <= k < |cmds| ==> |cmds[k]| == 0 || cmds[k][|cmds[k]| - 1] != path
    ensures var r := RunFrom(fs, cmds, succeeds, start); path in r && r[path] == fs[path]
  {
    if cmds != [] {
      var n := |cmds| - 1;
      assert forall k :: 0 <= k < n ==> cmds[..n][k] == cmds[k];
      RunFromKeeps(fs, cmds[..n], succeeds, start, path);
    }
  }

  /** On a mount point the body leaves alone, the context manager opens with
      the read-only remount and always ends with the read-write one, whether
      the read-only remount failed or the body raised; the body runs exactly
      when the read-only remount succeeded; a successful read-write remount
      leaves the path read-write; and the error raised is the read-write
      remount's, else the read-only remount's, else the body's. */
  lemma TemporaryRestoresReadWrite(fs: MountTable, path: string, body: seq<Argv>, bodyRaises: bool,
                                   succeeds: (nat, Argv) -> bool, start: nat)
    requires IsMountPoint(fs, path)
    requires forall k :: 0 <= k < |body| ==> |body[k]| == 0 || body[k][|body[k]| - 1] != path
    ensures var s := TemporarySpec(fs, path, body, bodyRaises, succeeds, start);
      var roOk := succeeds(start, RemountArgv("ro", path));
      var rwAt := start + 1 + (if roOk then |body| else 0);
      var rwOk := succeeds(rwAt, RemountArgv("rw", path));
      && s.trace == [RemountArgv("ro", path)] + (if roOk then body else []) + [RemountArgv("rw", path)]
      && (rwOk ==> MountedAs(s.fs, path, MountedRw))
      && s.outcome == (if !rwOk then Fail(CommandFailed(RemountArgv("rw", path)))
                       else if !roOk then Fail(CommandFailed(RemountArgv("ro", path)))
                       else if bodyRaises then Fail(BodyRaised)
                       else Pass)
  {
    EffectRemount(fs, path);
    var roOk := succeeds(start, RemountArgv("ro", path));
    var ro := RemountSpec(fs, "ro", path, succeeds, start);
    var bodyFs := if roOk then RunFrom(ro.fs, body, succeeds, start + 1) else ro.fs;
    if roOk {
      RunFromKeeps(ro.fs, body, succeeds, start + 1, path);
    }
    assert IsMountPoint(bodyFs, path);
    EffectRemount(bodyFs, path);
  }

  /** The point of the context manager: once the read-only remount has
      returned, the path is read-only before the body's first command,
      after each of them, and when the finally block begins, as long as the
      body leaves the path alone. */
  lemma ReadOnlyWhileBodyRuns(fs: MountTable, path: string, body: seq<Argv>,
                              succeeds: (nat, Argv) -> bool, start: nat)
    requires IsMountPoint(fs, path)
    requires forall k :: 0 <= k < |body| ==> |body[k]| == 0 || body[k][|body[k]| - 1] != path
    ensures var ro := RemountSpec(fs, "ro", path, succeeds, start);
      succeeds(start, RemountArgv("ro", path)) ==>
        && ro.outcome == Pass && |ro.trace| == 1
        && forall k :: 0 <= k <= |body| ==>
             MountedAs(RunFrom(ro.fs, body[..k], succeeds, start + 1), path, MountedRo)
  {
    RemountSetsMode(fs, path, succeeds, start);
    var ro := RemountSpec(fs, "ro", path, succeeds, start);
    if succeeds(start, RemountArgv("ro", path)) {
      forall k | 0 <= k <= |body|
        ensures MountedAs(RunFrom(ro.fs, body[..k], succeeds, start + 1), path, MountedRo)
      {
        assert forall j :: 0 <= j < k ==> body[..k][j] == body[j];
        RunFromKeeps(ro.fs, body[..k], succeeds, start + 1, path);
      }
    }
  }

  // ---------------------------------------------------------------------
  // run_with_sudo as written.

  /** As written, remounting issues an `echo` of the password and the mount
      command's words, which changes no mount: a read-write mount point
      stays read-write after "remount_readonly" succeeds. */
  lemma RemountAsWrittenChangesNothing(fs: MountTable, mode: string, path: string)
    ensures Effect(fs, SudoArgv(RemountArgv(mode, path), Some("test123"))) == fs
    ensures MountedAs(fs, path, MountedRw) ==>
      MountedAs(Effect(fs, SudoArgv(RemountArgv("ro", path), Some("test123"))), path, MountedRw)
  {
    EchoChangesNothing(fs, RemountArgv(mode, path), "test123");
    EchoChangesNothing(fs, RemountArgv("ro", path), "test123");
  }
}
