/**
 * Starting and stopping the local engine: the `start-local-yak-grpc-server`
 * launcher (preconditions, port draw, command line), the `kill-yak-grpc`
 * handler with its privileged fallback, and `is-yak-engine-installed`.
 * File-system probes, the random draw and the outcomes of `exec` and of the
 * privilege prompt are parameters.
 */
module Launcher {
  import opened Js
  import opened ProcessDirectory
  import Upgrade

  const PortBase := 50000
  const PortRange := 10000
  const MissingBinDirError := "cannot find '/usr/local/bin'"
  const NotInstalledError := "uninstall yak engine"
  const LaunchPrefix := "yak grpc --port "

  /** A command handed to the operating system: run directly, or through the
      privilege prompt under the given title. */
  datatype Command = Plain(command: string) | Prompted(command: string, title: string)

  // ---------------------------------------------------------------------------
  // start-local-yak-grpc-server

  /** `50000 + getRandomInt(10000)`, where `r` is the integer the draw gave. */
  function LaunchPort(r: nat): (port: nat)
    requires r < PortRange
    ensures PortBase <= port < PortBase + PortRange
  {
    PortBase + r
  }

  /** `yak grpc --port ${randPort}` */
  function LaunchCommand(port: nat): string {
    LaunchPrefix + NatToDecimal(port)
  }

  /** The title of the privilege prompt: `yak grpc port ${randPort}`. */
  function LaunchTitle(port: nat): string {
    "yak grpc port " + NatToDecimal(port)
  }

  /** What the spawned `yak grpc` process has done so far. `exec` and the
      privilege prompt call back only once the process exits, with its error
      (a non-zero exit, a failed spawn, a refused prompt) or with none. */
  datatype EngineRun = Running | Exited(error: Option<string>)

  /** What a launch did: the commands it issued and the state of its promise. */
  datatype Launch = Launch(issued: seq<Command>, outcome: Settled<Scalar>)

  /** `asyncStartLocalYakGRPCServer`. Off Windows, a missing `/usr/local/bin`
      or `/usr/local/bin/yak` rejects before anything is spawned. Otherwise
      the command is run, through the prompt when `sudo` is truthy. The
      promise stays pending while the engine runs; once it exits, the promise
      resolves with no value (the executor's `return randPort` is discarded)
      or rejects with the exit's error. */
  function StartLocalEngine(isWindows: bool, sudo: Scalar, binDirExists: bool, binExists: bool,
                            r: nat, engine: EngineRun): Launch
    requires r < PortRange
  {
    if !isWindows && !binDirExists then Launch([], Rejected(MissingBinDirError))
    else if !isWindows && !binExists then Launch([], Rejected(NotInstalledError))
    else
      var port := LaunchPort(r);
      var run := if Truthy(sudo) then Prompted(LaunchCommand(port), LaunchTitle(port)) else Plain(LaunchCommand(port));
      var settled :=
        match engine
        case Running => Pending
        case Exited(None) => Resolved(Undefined)
        case Exited(Some(e)) => Rejected(e);
      Launch([run], settled)
  }

  /** `is-yak-engine-installed` off Windows: both probes must succeed. */
  predicate PosixInstalled(binDirExists: bool, binExists: bool) {
    if !binDirExists then false else binExists
  }

  /** `is-yak-engine-installed`: off Windows the two probes; on Windows
      whether `<root>\System32\yak.exe` exists, where a missing root makes
      `path.join` throw. */
  function IsEngineInstalled(isWindows: bool, binDirExists: bool, binExists: bool,
                             windowsPath: Option<string>, windowsPathExists: bool): Settled<bool> {
    if !isWindows then Resolved(PosixInstalled(binDirExists, binExists))
    else if windowsPath.None? then Rejected(Upgrade.PathTypeError)
    else Resolved(windowsPathExists)
  }

  /** Off Windows nothing is spawned unless both probes succeed, and the
      rejection names the first probe that failed. A launch that spawns
      issues exactly one command, elevated iff `sudo` is truthy; its promise
      is pending exactly while the engine runs, and never resolves with the
      port. */
  lemma LaunchPreconditions(isWindows: bool, sudo: Scalar, binDirExists: bool, binExists: bool,
                            r: nat, engine: EngineRun)
    requires r < PortRange
    ensures var l := StartLocalEngine(isWindows, sudo, binDirExists, binExists, r, engine);
            && (l.issued == [] <==> !isWindows && !PosixInstalled(binDirExists, binExists))
            && (!isWindows && !binDirExists ==> l.outcome == Rejected(MissingBinDirError))
            && (!isWindows && binDirExists && !binExists ==> l.outcome == Rejected(NotInstalledError))
            && (l.issued != [] ==> |l.issued| == 1 && l.issued[0].command == LaunchCommand(LaunchPort(r))
                                   && (l.issued[0].Prompted? <==> Truthy(sudo)))
            && (l.outcome.Pending? <==> l.issued != [] && engine.Running?)
            && (l.outcome.Resolved? <==> l.issued != [] && engine == Exited(None))
            && (l.outcome.Resolved? ==> l.outcome.value == Undefined)
            && (l.issued != [] && engine.Exited? && engine.error.Some?
                ==> l.outcome == Rejected(engine.error.value))
  {
  }

  /** Off Windows the installed check passes exactly when the launch
      preconditions do. */
  lemma InstalledIffLaunchable(sudo: Scalar, binDirExists: bool, binExists: bool, r: nat, engine: EngineRun)
    requires r < PortRange
    ensures IsEngineInstalled(false, binDirExists, binExists, None, false) == Resolved(true)
            <==> StartLocalEngine(false, sudo, binDirExists, binExists, r, engine).issued != []
  {
  }

  /** No position of "yak grpc --" starts a match of `port\s+`: the only 'p'
      there is followed by 'c'. */
  lemma NoCaptureInPrefix(cmd: string, k: nat)
    requires StartsWith(cmd, LaunchPrefix) && k < 11
    ensures PortCaptureAt(cmd, k).None?
  {
    NoPortInPrefix(cmd, k);
  }

  lemma NoPortInPrefix(cmd: string, k: nat)
    requires StartsWith(cmd, LaunchPrefix) && k < 11
    ensures !StartsWith(cmd[k..], "port")
  {
    assert cmd[k] == LaunchPrefix[k];
    if k == 6 {
      assert cmd[k..][1] == cmd[7] == LaunchPrefix[7];
    } else {
      assert cmd[k..][0] == cmd[k];
    }
  }

  /** Applying the process list's port pattern to the launch command gives
      back the port's digits, and `parseInt` of them gives back the port. */
  lemma LaunchCommandRoundTrip(port: nat)
    ensures PortCapture(LaunchCommand(port), 0) == Some(NatToDecimal(port))
    ensures ParseInt(NatToDecimal(port)) == Int(port)
  {
    var d := NatToDecimal(port);
    var cmd := LaunchCommand(port);
    assert StartsWith(cmd, LaunchPrefix);
    forall k | 0 <= k < 11
      ensures PortCaptureAt(cmd, k).None?
    {
      NoCaptureInPrefix(cmd, k);
    }
    PortCaptureSkip(cmd, 0, 11);
    assert cmd[11..][..4] == LaunchPrefix[11..15];
    assert IsSpace(cmd[15]);
    assert !IsSpace(cmd[16]) by {
      assert cmd[16] == d[0];
    }
    assert SpaceRunEnd(cmd, 16) == 16;
    assert SpaceRunEnd(cmd, 15) == 16;
    assert cmd[16..] == d;
    LeadingDigitsOfDigits(d, 10);
    assert PortCaptureAt(cmd, 11) == Some(d);
    ParseIntOfNat(port);
  }

  /** A process spawned by the launcher is listed off Windows by the
      command-line rule, with the port it was launched on: its record
      carries the decimal text of the port, which `parseInt` reads back. */
  lemma LaunchedEngineIsListed(r: nat, pid: int)
    requires r < PortRange
    ensures var proc := ProcessInfo(pid, Some("yak"), Some(LaunchCommand(LaunchPort(r))));
            && PosixYakProcesses([proc]) == [Finish(Tagged(PortText(NatToDecimal(LaunchPort(r))), proc))]
            && ParseInt(NatToDecimal(LaunchPort(r))) == Int(LaunchPort(r))
  {
    var port := LaunchPort(r);
    var cmd := LaunchCommand(port);
    var proc := ProcessInfo(pid, Some("yak"), Some(cmd));
    assert StartsWith(cmd, "yak grpc") by {
      assert cmd[..8] == LaunchPrefix[..8];
    }
    assert IsPosixYak(proc);
    LaunchCommandRoundTrip(port);
    assert PosixPort(proc) == PortText(NatToDecimal(port));
    PosixYakOfOne(proc);
  }

  lemma PosixYakOfOne(proc: ProcessInfo)
    requires IsPosixYak(proc)
    ensures PosixYakProcesses([proc]) == [Finish(Tagged(PosixPort(proc), proc))]
  {
    assert [proc][1..] == [];
    assert Filter(IsPosixYak, [proc]) == [proc];
    var r := PosixYakProcesses([proc]);
    assert |r| == 1 && r[0] == Finish(Tagged(PosixPort(proc), proc));
  }

  // ---------------------------------------------------------------------------
  // kill-yak-grpc

  /** `taskkill /F /PID ${pid}` on Windows, `kill -9 ${pid}` elsewhere. */
  function KillCommand(isWindows: bool, pid: Scalar): string {
    if isWindows then "taskkill /F /PID " + ToStr(pid) else "kill -9 " + ToStr(pid)
  }

  /** The title of the privilege prompt for the fallback kill. */
  function KillTitle(isWindows: bool, pid: Scalar): string {
    if isWindows then "taskkill F PID " + ToStr(pid) else "kill SIGKILL PID " + ToStr(pid)
  }

  /** `${err}` for the error a callback receives: the error's string form,
      or, after a successful run, the string form of `noError`, the value the
      prompt passes in that case (`null` or `undefined`, as the prompt's own
      platform code decides). */
  function ErrorText(err: Option<string>, noError: Scalar): (text: string)
    ensures err.Some? ==> text == err.value
    ensures err.None? && noError == Null ==> text == "null"
    ensures err.None? && noError == Undefined ==> text == "undefined"
  {
    if err.Some? then err.value else ToStr(noError)
  }

  /** What a kill did: the commands it issued and how its promise settled. */
  datatype Kill = Kill(issued: seq<Command>, outcome: Settled<bool>)

  /** `asyncKillYakGRPC` as written: a successful kill resolves `true`; a
      failed one is retried through the privilege prompt, whose callback
      tests the first attempt's `error` instead of its own `err`, so it
      always rejects, with `${err}`. */
  function AsyncKillAsWritten(isWindows: bool, pid: Scalar, firstError: Option<string>,
                              elevatedError: Option<string>, noError: Scalar): Kill {
    var cmd := KillCommand(isWindows, pid);
    if firstError.None? then Kill([Plain(cmd)], Resolved(true))
    else
      var settled := if firstError.None? then Resolved(true) else Rejected(ErrorText(elevatedError, noError));
      Kill([Plain(cmd), Prompted(cmd, KillTitle(isWindows, pid))], settled)
  }

  /** `asyncKillYakGRPC` with the fallback callback testing its own error:
      the elevated kill's success resolves `true`. */
  function AsyncKill(isWindows: bool, pid: Scalar, firstError: Option<string>, elevatedError: Option<string>): Kill {
    var cmd := KillCommand(isWindows, pid);
    if firstError.None? then Kill([Plain(cmd)], Resolved(true))
    else
      var settled := if elevatedError.None? then Resolved(true) else Rejected(elevatedError.value);
      Kill([Plain(cmd), Prompted(cmd, KillTitle(isWindows, pid))], settled)
  }

  /** The `kill-yak-grpc` handler: it settles when the kill does, with the
      kill's value, or with "" when the kill rejected. It never rejects. */
  function KillHandler(outcome: Settled<bool>): (r: Settled<Scalar>)
    ensures r.Pending? <==> outcome.Pending?
    ensures !r.Rejected?
    ensures outcome.Rejected? <==> r == Resolved(Str(""))
    ensures outcome.Resolved? ==> r == Resolved(Bool(outcome.value))
  {
    match outcome
    case Resolved(b) => Resolved(Bool(b))
    case Rejected(_) => Resolved(Str(""))
    case Pending => Pending
  }

  /** As written, the prompt is offered exactly when the plain kill fails,
      and the promise then rejects whatever the elevated kill did; the
      handler answers `true` only when the plain kill succeeded. */
  lemma KillFallbackAlwaysRejects(isWindows: bool, pid: Scalar, firstError: Option<string>,
                                  elevatedError: Option<string>, noError: Scalar)
    ensures var k := AsyncKillAsWritten(isWindows, pid, firstError, elevatedError, noError);
            && (|k.issued| == 2 <==> firstError.Some?)
            && (k.outcome == Resolved(true) <==> firstError.None?)
            && (firstError.Some? ==> k.outcome == Rejected(ErrorText(elevatedError, noError)))
            && (KillHandler(k.outcome) == Resolved(Bool(true)) <==> firstError.None?)
  {
  }

  /** The input that shows the discrepancy: the plain kill fails, the
      elevated kill succeeds, and the promise still rejects, with the string
      form of the prompt's absent error, so the handler answers ""; the
      corrected kill resolves `true`. */
  lemma KillFallbackCounterexample(isWindows: bool, pid: Scalar, firstError: string, noError: Scalar)
    ensures AsyncKillAsWritten(isWindows, pid, Some(firstError), None, noError).outcome
            == Rejected(ToStr(noError))
    ensures KillHandler(AsyncKillAsWritten(isWindows, pid, Some(firstError), None, noError).outcome)
            == Resolved(Str(""))
    ensures AsyncKill(isWindows, pid, Some(firstError), None).outcome == Resolved(true)
  {
  }

  /** The corrected kill resolves `true` exactly when one of the two attempts
      succeeded, rejects with the elevated error otherwise, issues the same
      commands as the code as written, and agrees with it whenever the
      elevated kill fails or is never tried. */
  lemma KillSucceedsIfEitherAttemptDoes(isWindows: bool, pid: Scalar, firstError: Option<string>,
                                        elevatedError: Option<string>, noError: Scalar)
    ensures var k := AsyncKill(isWindows, pid, firstError, elevatedError);
            && (k.outcome == Resolved(true) <==> firstError.None? || elevatedError.None?)
            && (firstError.Some? && elevatedError.Some? ==> k.outcome == Rejected(elevatedError.value))
            && k.issued == AsyncKillAsWritten(isWindows, pid, firstError, elevatedError, noError).issued
            && (firstError.None? || elevatedError.Some?
                ==> k == AsyncKillAsWritten(isWindows, pid, firstError, elevatedError, noError))
            && (KillHandler(k.outcome) == Resolved(Bool(true)) <==> firstError.None? || elevatedError.None?)
  {
  }

  /** Every command a kill issues targets the given pid with the platform's
      forced kill, and the prompt is used only after a plain attempt. */
  lemma KillCommandsTargetPid(isWindows: bool, pid: Scalar, firstError: Option<string>, elevatedError: Option<string>)
    ensures var k := AsyncKill(isWindows, pid, firstError, elevatedError);
            && |k.issued| >= 1 && k.issued[0].Plain?
            && forall i :: 0 <= i < |k.issued| ==> k.issued[i].command == KillCommand(isWindows, pid)
    ensures isWindows ==> StartsWith(KillCommand(isWindows, pid), "taskkill /F /PID ")
    ensures !isWindows ==> StartsWith(KillCommand(isWindows, pid), "kill -9 ")
  {
    var c := KillCommand(isWindows, pid);
    if isWindows {
      assert c[..17] == "taskkill /F /PID ";
    } else {
      assert c[..8] == "kill -9 ";
    }
  }
}
