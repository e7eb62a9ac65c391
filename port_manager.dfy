/**
 * Freeing the servers' ports before they listen: probe whether a port is
 * taken, find the process holding it, and kill that process. The shell
 * commands are modelled by their text; what `exec` reports for each of
 * them is an input.
 */
module PortManager {
  import opened Text

  datatype Platform = Win32 | Unix

  /** What `exec` hands its callback: an error, or the command's standard output. */
  datatype ExecResult = ExecError | ExecOk(stdout: string)

  /** The probe command: `netstat` filtered on Windows, `lsof` elsewhere. */
  function ProbeCommand(platform: Platform, port: nat): (cmd: string)
    ensures EndsWith(cmd, ":" + NatToString(port))
  {
    var p := ":" + NatToString(port);
    var head := if platform == Win32 then "netstat -ano | findstr " else "lsof -i ";
    assert (head + p)[|head + p| - |p|..] == p;
    head + p
  }

  /** The PID lookup command: the probe itself on Windows, the `lsof` listing filtered on `LISTEN` elsewhere. */
  function LookupCommand(platform: Platform, port: nat): (cmd: string)
    ensures platform == Win32 ==> cmd == ProbeCommand(platform, port)
  {
    if platform == Win32 then ProbeCommand(platform, port)
    else "lsof -i :" + NatToString(port) + " | grep LISTEN"
  }

  function KillCommand(platform: Platform, pid: string): (cmd: string)
    ensures EndsWith(cmd, pid)
  {
    var head := if platform == Win32 then "taskkill /F /PID " else "kill -9 ";
    assert (head + pid)[|head + pid| - |pid|..] == pid;
    head + pid
  }

  /** `isPortTaken`: false when the command fails, otherwise whether its output mentions `:port`. */
  function IsPortTaken(probe: ExecResult, port: nat): (taken: bool)
    ensures probe.ExecError? ==> !taken
    ensures probe.ExecOk? ==> (taken <==> Contains(probe.stdout, ":" + NatToString(port)))
  {
    match probe
    case ExecError => false
    case ExecOk(stdout) => Contains(stdout, ":" + NatToString(port))
  }

  /** The last line of `stdout.trim()` split on newlines. */
  function LastLine(stdout: string): (line: string)
    ensures '\n' !in line
  {
    LastPiece(Trim(stdout), '\n')
  }

  /** The last line is the text after the last newline of the trimmed output, or all of it without one. */
  lemma LastLineAfterLastNewline(stdout: string)
    ensures IsLastPiece(Trim(stdout), '\n', LastLine(stdout))
  {
    SplitLastSuffix(Trim(stdout), '\n');
  }

  /** The Windows PID: the last whitespace-separated token of the trimmed last line. */
  function Win32Pid(stdout: string): (pid: string)
    ensures forall i :: 0 <= i < |pid| ==> !IsSpace(pid[i])
  {
    AfterLast(Trim(LastLine(stdout)), IsSpace)
  }

  /** The Windows PID is the whole trimmed last line or follows a whitespace character in it: no longer token ends the line. */
  lemma Win32PidMaximal(stdout: string)
    ensures FollowsSpace(Trim(LastLine(stdout)), Win32Pid(stdout))
  {
    LastTokenMaximal(Trim(LastLine(stdout)));
  }

  /**
   * `getPidByPort`: null when the command fails; on Windows the last token
   * of the last output line; elsewhere the number the `lsof` pattern
   * captures, passed in as `unixMatch`, when it is non-empty.
   */
  function PidByPort(platform: Platform, lookup: ExecResult, unixMatch: Option<string>): (pid: Option<string>)
    ensures lookup.ExecError? ==> pid.None?
    ensures lookup.ExecOk? && platform == Win32 ==> pid == Some(Win32Pid(lookup.stdout))
    ensures lookup.ExecOk? && platform == Unix ==>
      (pid.Some? <==> unixMatch.Some? && unixMatch.value != "") && (pid.Some? ==> pid == unixMatch)
  {
    match lookup
    case ExecError => None
    case ExecOk(stdout) =>
      if platform == Win32 then Some(Win32Pid(stdout))
      else if unixMatch.Some? && unixMatch.value != "" then unixMatch
      else None
  }

  /** A PID is usable when it is present and non-empty (`if (pid)`). */
  predicate Found(pid: Option<string>) {
    pid.Some? && pid.value != ""
  }

  /** On Windows an empty output yields the empty PID, which counts as none found. */
  lemma EmptyOutputEmptyPid()
    ensures PidByPort(Win32, ExecOk(""), None) == Some("") && !Found(Some(""))
  {
    assert Trim("") == "";
    assert Split("", '\n') == [""];
  }

  /** Output without a newline is a single line: the last line is the whole trimmed output. */
  lemma SingleLine(stdout: string)
    requires '\n' !in stdout
    ensures LastLine(stdout) == Trim(stdout)
  {
    TrimKeepsNoNewline(stdout);
    SplitNoSeparator(Trim(stdout), '\n');
  }

  /** The PID of a single `netstat` row is its last column, whatever whitespace precedes it. */
  lemma Win32PidOfRow(cols: string, pid: string)
    requires '\n' !in cols && pid != []
    requires forall i :: 0 <= i < |pid| ==> !IsSpace(pid[i])
    ensures Win32Pid(cols + " " + pid) == pid
  {
    var s := cols + " " + pid;
    assert s[|s| - |pid|..] == pid;
    assert '\n' !in s by {
      assert '\n' !in pid;
    }
    SingleLine(s);
    TrimStartKeepsToken(s, pid);
    TrimIsTrimStart(s);
    TrimFixed(TrimStart(s));
    LastTokenAfterTrimStart(s, pid);
  }

  /** `killProcess`: resolves exactly when the kill command reports no error. */
  function KillSucceeds(kill: ExecResult): (ok: bool)
    ensures ok <==> kill.ExecOk?
  {
    !kill.ExecError?
  }

  /** One shell command `ensurePortAvailable` runs. */
  datatype Step = Probe | Lookup | Kill(pid: string)

  /** The text of the command a step runs. */
  function CommandOf(platform: Platform, port: nat, step: Step): (cmd: string)
    ensures step.Kill? ==> EndsWith(cmd, step.pid)
    ensures step.Probe? ==> EndsWith(cmd, ":" + NatToString(port))
  {
    match step
    case Probe => ProbeCommand(platform, port)
    case Lookup => LookupCommand(platform, port)
    case Kill(pid) => KillCommand(platform, pid)
  }

  /**
   * `ensurePortAvailable`: a free port is available without a lookup; for
   * a taken port the PID is looked up, and the port is available exactly
   * when a non-empty PID was found and killing it succeeded. `steps` are
   * the commands run, in order; `probe`, `lookup` and `kill` are what each
   * of them reports.
   */
  method EnsurePortAvailable(platform: Platform, port: nat, probe: ExecResult, lookup: ExecResult,
                             unixMatch: Option<string>, kill: ExecResult)
    returns (available: bool, steps: seq<Step>)
    ensures !IsPortTaken(probe, port) ==> available && steps == [Probe]
    ensures IsPortTaken(probe, port) ==>
      var pid := PidByPort(platform, lookup, unixMatch);
      (available <==> Found(pid) && KillSucceeds(kill)) &&
      steps == [Probe, Lookup] + (if Found(pid) then [Kill(pid.value)] else [])
  {
    steps := [Probe];
    var isTaken := IsPortTaken(probe, port);
    if !isTaken {
      return true, steps;
    }
    steps := steps + [Lookup];
    assert steps == [Probe, Lookup];
    var pid := PidByPort(platform, lookup, unixMatch);
    var found := Found(pid);
    if !found {
      return false, steps;
    }
    steps := steps + [Kill(pid.value)];
    assert steps == [Probe, Lookup] + [Kill(pid.value)];
    available := KillSucceeds(kill);
  }
}
