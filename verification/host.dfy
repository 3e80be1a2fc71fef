/**
 * What the client sees of the machine it runs on: the files on disk, the
 * environment, the programs on $PATH, subprocesses, and the SHA-1 function.
 *
 * Subprocesses (`patch`, `bundle install`, `bundle update`, `git`) are oracle
 * inputs: the i-th process the client starts gets the platform's answer
 * `respond(i)`, which says whether it started and, if it did, its exit
 * status, the lines it printed on stdout and the disk it left behind.
 */
module Host {
  import opened Text
  import opened Errors
  import opened GitBlob

  /** Path to file contents; a path that is absent cannot be read. */
  type FileSystem = map<string, seq<byte>>

  /** One subprocess start: working directory, program and arguments, stdin. */
  datatype Command = Command(dir: string, argv: seq<string>, stdin: string)

  datatype ProcessResult =
    | NotStarted
    | Exited(code: nat, stdout: seq<string>, disk: FileSystem)

  datatype Platform = Platform(
    env: map<string, string>,
    onPath: set<string>,
    respond: nat -> ProcessResult,
    sha1: Hasher)

  /** `os.Getenv`: the empty string for an unset variable. */
  function Getenv(env: map<string, string>, name: string): (v: string)
    ensures name !in env ==> v == ""
    ensures name in env ==> v == env[name]
  {
    if name in env then env[name] else ""
  }

  /** The disk and the commands started so far, oldest first. */
  datatype World = World(disk: FileSystem, trace: seq<Command>)

  datatype Ran = Ran(w: World, result: ProcessResult)

  /**
   * Starting `cmd`: it is recorded in the trace, and if it ran, the disk is
   * the one it left behind.
   */
  function Run(p: Platform, w: World, cmd: Command): (r: Ran)
    ensures r.w.trace == w.trace + [cmd]
    ensures r.result == p.respond(|w.trace|)
    ensures r.result.NotStarted? ==> r.w.disk == w.disk
    ensures r.result.Exited? ==> r.w.disk == r.result.disk
  {
    var res := p.respond(|w.trace|);
    Ran(World(if res.Exited? then res.disk else w.disk, w.trace + [cmd]), res)
  }

  /** The machine as the imperative code sees it: a disk and a process log that commands change. */
  class Machine {
    const p: Platform
    var disk: FileSystem
    var trace: seq<Command>

    function State(): World
      reads this
    {
      World(disk, trace)
    }

    constructor (p: Platform, w: World)
      ensures this.p == p && State() == w
    {
      this.p := p;
      disk := w.disk;
      trace := w.trace;
    }

    /** Start `cmd` and wait for it. */
    method Exec(cmd: Command) returns (result: ProcessResult)
      modifies this
      ensures Ran(State(), result) == Run(p, old(State()), cmd)
    {
      result := p.respond(|trace|);
      if result.Exited? {
        disk := result.disk;
      }
      trace := trace + [cmd];
    }
  }

  /** The `(?m)^...` line patterns of bundler's output, matched line by line. */
  const TryRunningPrefix := "Try running `"
  const IncompatiblePrefix := "Bundler could not find compatible versions for gem"

  /** A line matching "^Try running `(.*)`$". */
  predicate IsTryRunning(line: string) {
    |line| > |TryRunningPrefix| && HasPrefix(line, TryRunningPrefix) && line[|line| - 1] == '`'
  }

  /** The submatch of a Try-running line: everything between the prefix and the last backquote. */
  function TryRunningCommand(line: string): string
    requires IsTryRunning(line)
  {
    line[|TryRunningPrefix|..|line| - 1]
  }

  predicate IsIncompatible(line: string) {
    HasPrefix(line, IncompatiblePrefix)
  }

  /** The command named by the first Try-running line of `out`, if any. */
  function FirstTryRunning(out: seq<string>): (r: Option<string>)
    ensures r.None? <==> forall i :: 0 <= i < |out| ==> !IsTryRunning(out[i])
    ensures r.Some? ==> exists i :: (0 <= i < |out| && IsTryRunning(out[i])
      && r.value == TryRunningCommand(out[i])
      && forall j :: 0 <= j < i ==> !IsTryRunning(out[j]))
  {
    if out == [] then None
    else if IsTryRunning(out[0]) then
      Some(TryRunningCommand(out[0]))
    else
      var r := FirstTryRunning(out[1..]);
      if r.Some? then
        var i :| 0 <= i < |out[1..]| && IsTryRunning(out[1..][i])
          && r.value == TryRunningCommand(out[1..][i])
          && forall j :: 0 <= j < i ==> !IsTryRunning(out[1..][j]);
        assert IsTryRunning(out[i + 1]) && forall j :: 0 <= j < i + 1 ==> !IsTryRunning(out[j]);
        r
      else
        assert forall i :: 0 <= i < |out| ==> !IsTryRunning(out[i]) by {
          forall i | 0 <= i < |out| ensures !IsTryRunning(out[i]) {
            if i > 0 { assert out[i] == out[1..][i - 1]; }
          }
        }
        None
  }

  predicate AnyIncompatible(out: seq<string>) {
    exists i :: 0 <= i < |out| && IsIncompatible(out[i])
  }
}
