/** The openvpn3 command lines the tray issues and the fail-soft runner
    `get_subprocess_output` that executes them. */
module OpenVpn3Cli {
  import opened Wrappers
  import opened PyText

  /** One element of the argument vector handed to `subprocess.run`: a
      string, or Python's `None` (which `ovpn_disconnect` passes through
      when no session id has ever been stored). */
  datatype Arg = Str(text: string) | NoneValue

  type Command = seq<Arg>

  /** `OPENVPN3_EXECUTABLE_PATH` and `OPENVPN3_CONFIG_FILE_PATH`, at their
      defaults; both are read once at start-up and never change. */
  const Executable: string := "openvpn3"
  const ConfigFilePath: string := "config.ovpn"

  /** The poll, issued by every connection check. */
  const SessionsList: Command := [Str(Executable), Str("sessions-list")]

  /** The command `ovpn_connect` issues. */
  const SessionStart: Command := [Str(Executable), Str("session-start"), Str("--config"), Str(ConfigFilePath)]

  /** The command `ovpn_disconnect` issues: the stored session id goes in
      last exactly as it is, `None` included. */
  function DisconnectCommand(sessionId: Option<string>): (cmd: Command)
    ensures |cmd| == 5 && cmd[0] == Str(Executable)
    ensures NoneValue in cmd <==> sessionId.None?
    ensures sessionId.Some? ==> cmd[4] == Str(sessionId.value)
  {
    [Str(Executable), Str("session-manage"), Str("--disconnect"), Str("--session-path"),
     match sessionId
     case Some(id) => Str(id)
     case None => NoneValue]
  }

  /** What the foreign call `subprocess.run(command, capture_output=True,
      check=False).stdout.decode("utf8")` comes to: the process ran to an
      end, with any exit status since `check=False`, and its standard output
      decoded to `stdout`; or the call raised (the program could not be
      started, or its output is not UTF-8). */
  datatype ProcessOutcome = Completed(stdout: string) | Raised

  /** The value `get_subprocess_output` returns. A `None` in the argument
      vector makes `subprocess.run` raise `TypeError` before any process
      starts, so that vector always ends in the `except` branch. */
  function SubprocessOutput(command: Command, outcome: ProcessOutcome): (out: string)
    ensures NoEdgeSpace(out)
    ensures out == [] || (outcome.Completed? && NoneValue !in command && out == Strip(outcome.stdout))
    ensures outcome.Completed? && NoneValue !in command ==> out == Strip(outcome.stdout)
  {
    match outcome
    case Completed(stdout) => if NoneValue in command then [] else Strip(stdout)
    case Raised => []
  }

  /** The poll and the connect command hold strings only, so they reach the
      process: a completed run yields its stripped standard output. */
  lemma FixedCommandsReachProcess(outcome: ProcessOutcome)
    ensures NoneValue !in SessionsList && NoneValue !in SessionStart
    ensures outcome.Completed? ==> SubprocessOutput(SessionsList, outcome) == Strip(outcome.stdout)
    ensures outcome.Completed? ==> SubprocessOutput(SessionStart, outcome) == Strip(outcome.stdout)
  {
  }

  /** Disconnecting without a stored id never reaches the VPN client: the
      runner yields the empty string whatever the environment does. */
  lemma DisconnectWithoutIdYieldsEmpty(outcome: ProcessOutcome)
    ensures SubprocessOutput(DisconnectCommand(None), outcome) == []
  {
    assert DisconnectCommand(None)[4] == NoneValue;
  }
}
