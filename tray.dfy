/** The tray application's session supervision: the icon it shows, the
    session id it remembers, and the openvpn3 commands its timer tick and
    its three menu actions issue. */
module Tray {
  import opened Wrappers
  import opened PyText
  import opened OpenVpn3Cli
  import opened SessionParser

  /** The two tray icons, `"enabled"` and `"disabled"`. */
  datatype Icon = Enabled | Disabled

  /** What the tray shows and remembers: the icon and `current_session_id`. */
  datatype TrayState = TrayState(icon: Icon, sessionId: Option<string>)

  /** Python truthiness of `current_session_id`: neither `None` nor `""`. */
  predicate IsTruthy(id: Option<string>) {
    id.Some? && id.value != []
  }

  /** `current_session_id` either was never set or was written by the
      extractor. */
  predicate WellFormedSessionId(id: Option<string>) {
    id.None? || IsStoredId(id.value)
  }

  /** `current_session_id` after `set_current_session_id(out)`. */
  function AfterExtraction(current: Option<string>, out: string): (id: Option<string>)
    ensures id.None? <==> current.None? && ExtractedSessionId(out).None?
    ensures id != current ==> id.Some? && IsStoredId(id.value)
    ensures WellFormedSessionId(current) ==> WellFormedSessionId(id)
  {
    match ExtractedSessionId(out)
    case Some(id) => Some(id)
    case None => current
  }

  /** The state after one `check_session` whose `sessions-list` run
      returned `out`. */
  function Checked(s: TrayState, out: string): (r: TrayState)
    ensures r.icon == Enabled <==> exists i: nat :: OccursAt(out, ConnectedMarker, i)
    ensures r.sessionId != s.sessionId ==> IsConnected(out) && r.sessionId == ExtractedSessionId(out)
    ensures s.sessionId.Some? ==> r.sessionId.Some?
  {
    if IsConnected(out) then TrayState(Enabled, AfterExtraction(s.sessionId, out))
    else TrayState(Disabled, s.sessionId)
  }

  /** The commands `action_exit` issues before quitting. */
  function ExitCommands(id: Option<string>): (cmds: seq<Command>)
    ensures cmds == [] || |cmds| == 2
    ensures cmds != [] <==> id.Some? && id.value != []
    ensures forall c :: c in cmds ==> NoneValue !in c
    ensures cmds != [] ==> cmds == [DisconnectCommand(id), SessionsList] && cmds[0][4] == Str(id.value)
  {
    if IsTruthy(id) then [DisconnectCommand(id), SessionsList] else []
  }

  /** When some stripped line starts with `Path: `, extraction stores the
      stripped text after the last colon of the last such line. */
  lemma {:induction false} ExtractionTakesLastPathLine(current: Option<string>, out: string, k: nat)
    requires var lines := Split(out, '\n');
             && k < |lines| && StartsWith(Strip(lines[k]), PathPrefix)
             && forall j :: k < j < |lines| ==> !StartsWith(Strip(lines[j]), PathPrefix)
    ensures var line := Strip(Split(out, '\n')[k]);
            AfterExtraction(current, out) == Some(Strip(AfterLast(line, ':')))
  {
    var lines := Split(out, '\n');
    LastSomeIsLastMatch(lines, LineSessionId, k);
  }

  /** When no stripped line starts with `Path: `, extraction leaves the
      stored id as it was; and only then. */
  lemma {:induction false} ExtractionKeepsIdWithoutPathLine(current: Option<string>, out: string)
    ensures var lines := Split(out, '\n');
            (forall k :: 0 <= k < |lines| ==> !StartsWith(Strip(lines[k]), PathPrefix))
            <==> ExtractedSessionId(out).None?
    ensures ExtractedSessionId(out).None? ==> AfterExtraction(current, out) == current
  {
    LastSomeNone(Split(out, '\n'), LineSessionId);
  }

  /** A check shows `"enabled"` exactly when the listing contains
      `Client connected`; a check that finds no connection changes nothing
      but the icon. */
  lemma CheckedFollowsListing(s: TrayState, out: string)
    ensures Checked(s, out).icon == Enabled <==> exists i: nat :: OccursAt(out, ConnectedMarker, i)
    ensures !IsConnected(out) ==> Checked(s, out) == s.(icon := Disabled)
  {
  }

  /** Every check keeps the stored id well formed. */
  lemma CheckedKeepsIdWellFormed(s: TrayState, out: string)
    requires WellFormedSessionId(s.sessionId)
    ensures WellFormedSessionId(Checked(s, out).sessionId)
  {
  }

  /** A failed or empty `sessions-list` run reads as "not connected": the
      icon goes to `"disabled"` and the stored id stays. */
  lemma {:induction false} FailedListingShowsDisabled(s: TrayState, outcome: ProcessOutcome)
    requires outcome.Raised? || Strip(outcome.stdout) == []
    ensures Checked(s, SubprocessOutput(SessionsList, outcome)) == TrayState(Disabled, s.sessionId)
  {
    ShortOutputNotConnected(SubprocessOutput(SessionsList, outcome));
  }

  /** A connected listing stores the stripped text after the last colon of
      its last `Path: ` line. */
  lemma {:induction false} CheckedStoresLastPathLine(s: TrayState, out: string, k: nat)
    requires IsConnected(out)
    requires var lines := Split(out, '\n');
             && k < |lines| && StartsWith(Strip(lines[k]), PathPrefix)
             && forall j :: k < j < |lines| ==> !StartsWith(Strip(lines[j]), PathPrefix)
    ensures Checked(s, out) == TrayState(Enabled, Some(Strip(AfterLast(Strip(Split(out, '\n')[k]), ':'))))
  {
    ExtractionTakesLastPathLine(s.sessionId, out, k);
  }

  /** Checking twice against an unchanged listing gives the same state as
      checking once. */
  lemma CheckedIdempotent(s: TrayState, out: string)
    ensures Checked(Checked(s, out), out) == Checked(s, out)
  {
  }

  /** The session id is never cleared: once stored, every later check keeps
      some id. */
  lemma CheckedNeverClearsId(s: TrayState, out: string)
    requires s.sessionId.Some?
    ensures Checked(s, out).sessionId.Some?
  {
  }

  /** One connect, check, disconnect, check round against listings that
      first report the session `/s/xyz` and then report nothing: the id
      survives the final check, so a later exit still disconnects it. */
  lemma {:induction false} ConnectDisconnectRound(listing: string, after: string)
    requires listing == ConnectedMarker + ['\n'] + PathPrefix + "/s/xyz"
    requires !IsConnected(after)
    ensures var s1 := Checked(TrayState(Disabled, None), listing);
            && s1 == TrayState(Enabled, Some("/s/xyz"))
            && DisconnectCommand(s1.sessionId)[4] == Str("/s/xyz")
            && Checked(s1, after) == TrayState(Disabled, Some("/s/xyz"))
            && ExitCommands(Checked(s1, after).sessionId) == [DisconnectCommand(Some("/s/xyz")), SessionsList]
  {
    assert OccursAt(listing, ConnectedMarker, 0);
    var line := PathPrefix + "/s/xyz";
    assert listing == ConnectedMarker + ['\n'] + line;
    SplitTwo(ConnectedMarker, line, '\n');
    PathLineId(line, "/s/xyz");
    LastOfTwo(ConnectedMarker, line, LineSessionId);
  }

  /** The tray application object: the icon shown and `current_session_id`
      are fields that its handlers overwrite. The external runner is a
      parameter of each handler: the outcome of each `subprocess.run` call
      it makes, in order. */
  class TrayApp {
    var icon: Icon
    var currentSessionId: Option<string>
    /** Every argument vector handed to `get_subprocess_output`, in order. */
    ghost var invocations: seq<Command>

    ghost predicate Valid()
      reads this
    {
      WellFormedSessionId(currentSessionId)
    }

    function State(): TrayState
      reads this
    {
      TrayState(icon, currentSessionId)
    }

    constructor ()
      ensures Valid()
      ensures State() == TrayState(Disabled, None) && invocations == []
    {
      icon := Disabled;
      currentSessionId := None;
      invocations := [];
    }

    method SetTrayIcon(name: Icon)
      modifies this`icon
      ensures icon == name
    {
      icon := name;
    }

    /** Runs `command` and never fails: the stripped standard output, or
        `""` when the call raised. */
    method GetSubprocessOutput(command: Command, outcome: ProcessOutcome) returns (out: string)
      modifies this`invocations
      ensures out == SubprocessOutput(command, outcome)
      ensures invocations == old(invocations) + [command]
    {
      invocations := invocations + [command];
      out := "";
      match outcome
      case Completed(stdout) =>
        if NoneValue !in command {
          out := Strip(stdout);
        }
      case Raised =>
    }

    /** Scans the listing line by line and overwrites the stored id on every
        `Path: ` line. */
    method SetCurrentSessionId(ovpnOutput: string)
      requires Valid()
      modifies this`currentSessionId
      ensures Valid()
      ensures currentSessionId == AfterExtraction(old(currentSessionId), ovpnOutput)
    {
      var lines := Split(ovpnOutput, '\n');
      for n := 0 to |lines|
        invariant Valid()
        invariant currentSessionId == match LastSome(lines[..n], LineSessionId)
                                      case Some(id) => Some(id)
                                      case None => old(currentSessionId)
      {
        LastSomeStep(lines, LineSessionId, n);
        var line := Strip(lines[n]);
        if StartsWith(line, PathPrefix) {
          currentSessionId := Some(Strip(AfterLast(line, ':')));
        }
      }
      assert lines[..|lines|] == lines;
    }

    method OvpnConnectionExists(outcome: ProcessOutcome) returns (connected: bool)
      requires Valid()
      modifies this`currentSessionId, this`invocations
      ensures Valid()
      ensures connected == IsConnected(SubprocessOutput(SessionsList, outcome))
      ensures currentSessionId == Checked(old(State()), SubprocessOutput(SessionsList, outcome)).sessionId
      ensures invocations == old(invocations) + [SessionsList]
    {
      var out := GetSubprocessOutput(SessionsList, outcome);
      if Contains(out, ConnectedMarker) {
        SetCurrentSessionId(out);
        return true;
      }
      return false;
    }

    method CheckSession(outcome: ProcessOutcome)
      requires Valid()
      modifies this`icon, this`currentSessionId, this`invocations
      ensures Valid()
      ensures State() == Checked(old(State()), SubprocessOutput(SessionsList, outcome))
      ensures invocations == old(invocations) + [SessionsList]
    {
      var connected := OvpnConnectionExists(outcome);
      if connected {
        SetTrayIcon(Enabled);
        return;
      }
      SetTrayIcon(Disabled);
    }

    /** One timer tick. */
    method TimerLoop(outcome: ProcessOutcome)
      requires Valid()
      modifies this`icon, this`currentSessionId, this`invocations
      ensures Valid()
      ensures State() == Checked(old(State()), SubprocessOutput(SessionsList, outcome))
      ensures invocations == old(invocations) + [SessionsList]
    {
      CheckSession(outcome);
    }

    /** Starts a session; its output is only logged. */
    method OvpnConnect(outcome: ProcessOutcome)
      modifies this`invocations
      ensures invocations == old(invocations) + [SessionStart]
    {
      var out := GetSubprocessOutput(SessionStart, outcome);
    }

    /** Disconnects whatever `current_session_id` holds, `None` included;
        the output is only logged. */
    method OvpnDisconnect(outcome: ProcessOutcome)
      modifies this`invocations
      ensures invocations == old(invocations) + [DisconnectCommand(currentSessionId)]
    {
      var out := GetSubprocessOutput(DisconnectCommand(currentSessionId), outcome);
    }

    method ActionConnect(startOutcome: ProcessOutcome, listOutcome: ProcessOutcome)
      requires Valid()
      modifies this`icon, this`currentSessionId, this`invocations
      ensures Valid()
      ensures State() == Checked(old(State()), SubprocessOutput(SessionsList, listOutcome))
      ensures invocations == old(invocations) + [SessionStart, SessionsList]
    {
      OvpnConnect(startOutcome);
      CheckSession(listOutcome);
    }

    method ActionDisconnect(disconnectOutcome: ProcessOutcome, listOutcome: ProcessOutcome)
      requires Valid()
      modifies this`icon, this`currentSessionId, this`invocations
      ensures Valid()
      ensures State() == Checked(old(State()), SubprocessOutput(SessionsList, listOutcome))
      ensures invocations == old(invocations) + [DisconnectCommand(old(currentSessionId)), SessionsList]
    {
      OvpnDisconnect(disconnectOutcome);
      CheckSession(listOutcome);
    }

    /** Disconnects first only when a non-empty id is stored; quitting the
        application is not part of this model. */
    method ActionExit(disconnectOutcome: ProcessOutcome, listOutcome: ProcessOutcome)
      requires Valid()
      modifies this`icon, this`currentSessionId, this`invocations
      ensures Valid()
      ensures invocations == old(invocations) + ExitCommands(old(currentSessionId))
      ensures State() == if IsTruthy(old(currentSessionId))
                         then Checked(old(State()), SubprocessOutput(SessionsList, listOutcome))
                         else old(State())
    {
      if currentSessionId.Some? && currentSessionId.value != [] {
        ActionDisconnect(disconnectOutcome, listOutcome);
      }
    }
  }
}
