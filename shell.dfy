/** The outside world the core drives: a log of every command it issues,
    an oracle that says whether each issued command succeeds, a clock, and
    the mount state of the host's paths, which follows from the commands
    that succeeded. */
module Shell {

  type Argv = seq<string>

  /** What `os.path.exists` and `os.path.ismount` / /proc/mounts report for
      a path that exists; a path missing from the map does not exist. */
  datatype MountState = NotMounted | MountedRw | MountedRo

  type MountTable = map<string, MountState>

  predicate IsMountPoint(fs: MountTable, p: string)
  {
    p in fs && fs[p] != NotMounted
  }

  /** `mount -o remount,<mode> <path>`, the command that flips a mounted
      filesystem between read-only ("ro") and read-write ("rw"). */
  function RemountArgv(mode: string, path: string): Argv
  {
    ["mount", "-o", "remount," + mode, path]
  }

  /** How a successful command changes the mount table. */
  function Effect(fs: MountTable, cmd: Argv): (r: MountTable)
    ensures forall p :: p in fs && (|cmd| == 0 || p != cmd[|cmd| - 1]) ==> p in r && r[p] == fs[p]
  {
    if |cmd| == 4 && cmd == RemountArgv("ro", cmd[3]) && IsMountPoint(fs, cmd[3]) then
      fs[cmd[3] := MountedRo]
    else if |cmd| == 4 && cmd == RemountArgv("rw", cmd[3]) && IsMountPoint(fs, cmd[3]) then
      fs[cmd[3] := MountedRw]
    else if |cmd| == 3 && cmd[0] == "mount" && cmd[1] != "-o" && cmd[2] in fs then
      fs[cmd[2] := MountedRw]
    else if |cmd| == 2 && cmd[0] == "umount" && IsMountPoint(fs, cmd[1]) then
      fs[cmd[1] := NotMounted]
    else if |cmd| == 3 && cmd[0] == "mkdir" && cmd[1] == "-p" && cmd[2] !in fs then
      fs[cmd[2] := NotMounted]
    else if |cmd| == 2 && cmd[0] == "rmdir" && cmd[1] in fs && fs[cmd[1]] == NotMounted then
      fs - {cmd[1]}
    else fs
  }

  /** Logs grow by concatenation; regrouping the pieces changes nothing. */
  lemma AppendAssoc<T>(a: seq<T>, b: seq<T>, c: seq<T>)
    ensures (a + b) + c == a + (b + c)
  {
  }

  /** A command, a run of commands and a closing command, appended one
      after the other or as one piece. */
  lemma AppendBracket<T>(log: seq<T>, a: T, mid: seq<T>, b: T)
    ensures ((log + [a]) + mid) + [b] == log + ([a] + mid + [b])
    ensures (log + [a]) + [b] == log + [a, b]
  {
  }

  /** Two commands, a run of commands, then two more: where each lands. */
  lemma Framed<T>(a: T, b: T, mid: seq<T>, c: T, d: T)
    ensures var t := [a] + ([b] + mid + [c, d]);
      && |t| == 4 + |mid| && t[0] == a && t[1] == b
      && t[|t| - 2] == c && t[|t| - 1] == d && t[2..|t| - 2] == mid
  {
    var t := [a] + ([b] + mid + [c, d]);
    assert t[2..|t| - 2] == mid;
  }

  lemma TakeSnoc<T>(s: seq<T>, n: nat)
    requires n < |s|
    ensures s[..n] + [s[n]] == s[..n + 1]
  {
  }

  lemma TakeTake<T>(s: seq<T>, m: nat, n: nat)
    requires m <= n <= |s|
    ensures s[..n][..m] == s[..m]
  {
  }

  lemma TakeAll<T>(s: seq<T>)
    ensures s[..|s|] == s
  {
  }

  /** A log extended by `t` is the log extended by all of `t` but its last
      element, then that element; and the prefixes agree. */
  lemma AppendLast<T>(log: seq<T>, t: seq<T>)
    requires t != []
    ensures log + t == (log + t[..|t| - 1]) + [t[|t| - 1]]
    ensures forall k :: 0 <= k < |t| ==> t[..|t| - 1][..k] == t[..k]
    ensures forall i :: 0 <= i < |t| - 1 ==> t[..|t| - 1][i] == t[i]
  {
    assert t == t[..|t| - 1] + [t[|t| - 1]];
  }

  /** The mount table after the commands of `log` ran from `fs`, the i-th
      command of the log succeeding exactly when `succeeds(i, log[i])`. */
  function Replay(fs: MountTable, log: seq<Argv>, succeeds: (nat, Argv) -> bool): MountTable
  {
    if log == [] then fs
    else
      var before := Replay(fs, log[..|log| - 1], succeeds);
      if succeeds(|log| - 1, log[|log| - 1]) then Effect(before, log[|log| - 1]) else before
  }

  predicate MountedAs(fs: MountTable, p: string, state: MountState)
  {
    p in fs && fs[p] == state
  }

  lemma ReplaySnoc(fs: MountTable, log: seq<Argv>, c: Argv, succeeds: (nat, Argv) -> bool)
    ensures Replay(fs, log + [c], succeeds) ==
      if succeeds(|log|, c) then Effect(Replay(fs, log, succeeds), c) else Replay(fs, log, succeeds)
  {
    assert (log + [c])[..|log|] == log;
  }

  /** Remounting a mount point sets its mode. */
  lemma EffectRemount(fs: MountTable, p: string)
    requires IsMountPoint(fs, p)
    ensures Effect(fs, RemountArgv("ro", p)) == fs[p := MountedRo]
    ensures Effect(fs, RemountArgv("rw", p)) == fs[p := MountedRw]
  {
    assert RemountArgv("rw", p) != RemountArgv("ro", p) by {
      assert RemountArgv("rw", p)[2] != RemountArgv("ro", p)[2] by {
        assert ("remount," + "rw")[9] == 'w';
      }
    }
  }

  class Host {
    /** Every command issued so far, in order. */
    var log: seq<Argv>
    /** The mount table before the first command. */
    const initialFs: MountTable
    /** Whether the n-th issued command (counting from 0) exits with status 0. */
    const succeeds: (nat, Argv) -> bool
    /** The integer time reading taken after n commands were issued. */
    const clock: nat -> int

    constructor (fs: MountTable, succeeds: (nat, Argv) -> bool, clock: nat -> int)
      ensures log == [] && initialFs == fs && this.succeeds == succeeds && this.clock == clock
    {
      log := [];
      initialFs := fs;
      this.succeeds := succeeds;
      this.clock := clock;
    }

    /** Issue one command (`subprocess.run`), reporting whether it succeeded. */
    method Run(cmd: Argv) returns (ok: bool)
      modifies this`log
      ensures log == old(log) + [cmd]
      ensures ok == succeeds(|old(log)|, cmd)
    {
      ok := succeeds(|log|, cmd);
      log := log + [cmd];
    }

    /** `int(time.time())`. */
    method Now() returns (t: int)
      ensures t == clock(|log|)
    {
      t := clock(|log|);
    }
  }
}
