# openvpn3 tray supervisor, modelled in Dafny

`main.py` is a system-tray application. It watches an OpenVPN 3 session through
the `openvpn3` command line. A timer tick runs `openvpn3 sessions-list`. The
tray icon shows `"enabled"` when the listing contains `Client connected` and
`"disabled"` otherwise. On a connected listing, the session path from the
`Path: ` line is remembered in `current_session_id`. The menu offers Connect
(`session-start --config <file>`), Disconnect
(`session-manage --disconnect --session-path <id>`) and Exit. Exit disconnects
first when a non-empty id is stored. Every command goes through `get_subprocess_output`,
which never raises: when it returns, it returns the stripped standard
output, or `""`.

The model has four modules:

- `PyText` (`pytext.dfy`): the Python `str` operations the core uses, with
  CPython's meaning. These are `strip()` with its exact whitespace set,
  `startswith`, `split("\n")`, `split(":")[-1]` and the `in` substring test.
  Each comes with the property that pins it down: the uniqueness of `strip`,
  the `split`/`join` round trip in both directions, and the "after the last
  separator" characterisation.
- `OpenVpn3Cli` (`openvpn3_cli.dfy`): the three argument vectors and the
  fail-soft runner. The runner is a function of the command and of a
  `ProcessOutcome` parameter, which stands for what the real process did.
- `SessionParser` (`session_parser.dfy`): the connection test and the
  session-id extractor, as specification functions with lemmas.
- `Tray` (`tray.dfy`): class `TrayApp` holds the icon and `current_session_id`
  as fields that its methods overwrite. A ghost field `invocations` records
  every argument vector handed to the runner, so each handler states exactly
  which commands it issues and in what order. The extractor is a `for` loop
  over the lines. It is proved against the specification function
  `AfterExtraction`. `Checked` is the state one check leads to, and the
  lemmas about it state the state machine's properties.

The runner's outcome is an explicit parameter of each handler, one per
`subprocess.run` call, in call order. The configuration values are constants
at their defaults: `openvpn3` and `config.ovpn`.

## Behaviour as written

The model follows `main.py` where a reader might expect something else:

- `current_session_id` is never cleared. A check that finds no connection
  leaves it as it was (`CheckedNeverClearsId`, `ConnectDisconnectRound`).
- Disconnect does not check for a missing id. `ovpn_disconnect` puts
  `current_session_id` into the argument vector even when it is `None`. Only
  Exit guards on the id. With `None` in the vector, `subprocess.run` raises
  `TypeError` before any process starts. The `except` branch then turns that
  into `""` (`DisconnectWithoutIdYieldsEmpty`).
- The stored id is the text after the line's last colon. For
  `Path: /net/openvpn/v3/sessions/abc123` that is the whole path
  `/net/openvpn/v3/sessions/abc123`, not `abc123` (`ExtractedIdIsWholePath`).
- With `check=False`, a non-zero exit status still yields the stripped
  standard output. Only an exception replaces the output by the `""`
  fallback; a run whose standard output is blank also yields `""`.
- A line such as `Path: x:` stores the empty id `""`. Exit treats that id
  as absent, because `if self.current_session_id:` is false for `""`.
- When several lines start with `Path: `, the last one wins.

## Model

| member | source | states |
|---|---|---|
| PyText.Strip | main.py:117 | `str.strip()`: the result has no whitespace at either end and is the input with whitespace removed at its two ends only |
| PyText.StripUnique | main.py:117 | any string obtained by removing only surrounding whitespace that has none at its own ends is the strip, so the two properties determine `strip` |
| PyText.StripIdempotent | main.py:119 | stripping a stripped string changes nothing |
| PyText.StripKeepsAbsent | main.py:119 | stripping never introduces a character, so a colon-free text stays colon-free |
| PyText.LeadingSpaces | main.py:117 | the whitespace run at the start: all whitespace, followed by a non-whitespace character or the end |
| PyText.TrailingSpaces | main.py:117 | the whitespace run at the end: all whitespace, preceded by a non-whitespace character or the start |
| PyText.Contains | main.py:87 | `pat in text` holds exactly when `pat` occurs at some index of `text` |
| PyText.Split | main.py:115 | `split(sep)` yields at least one piece and no piece contains the separator |
| PyText.JoinSplit | main.py:115 | joining the pieces of `split(sep)` with `sep` gives back the input |
| PyText.SplitJoin | main.py:115 | splitting a join of separator-free pieces gives back the pieces |
| PyText.SplitNoSeparator | main.py:115 | a string without the separator splits into itself alone |
| PyText.SplitAtFirst | main.py:115 | `a + sep + b` splits into `[a]` followed by the pieces of `b` when `a` has no separator |
| PyText.SplitTwo | main.py:115 | two separator-free lines joined by a newline split into exactly those two lines |
| PyText.SplitTwoTerminated | main.py:115 | a trailing newline produces a final empty line |
| PyText.AfterLast | main.py:119 | `split(":")[-1]` is a colon-free suffix of the line, preceded by a colon unless it is the whole line |
| PyText.SplitLastIsSuffix | main.py:119 | the last piece of a split is a suffix, preceded by the separator exactly when there are several pieces |
| PyText.LeadingSpacesAt | main.py:117 | the leading whitespace run ends at the first non-whitespace character |
| PyText.TrailingSpacesAt | main.py:117 | the trailing whitespace run starts after the last non-whitespace character |
| PyText.StripNoEdgeSpace | main.py:117 | a string without surrounding whitespace is its own strip |
| PyText.StartsWith | main.py:118 | `line.startswith(p)` holds exactly when the line is at least as long as the prefix and agrees with it character by character |
| OpenVpn3Cli.SubprocessOutput | main.py:121-130 | the runner never fails: its result has no surrounding whitespace and is either `""` or the stripped stdout of a completed run; a completed run with an all-string vector yields its stripped stdout; `None` in the vector yields `""` |
| OpenVpn3Cli.SessionsList | main.py:84 | the poll vector `[openvpn3, "sessions-list"]` (a constant) |
| OpenVpn3Cli.SessionStart | main.py:95-100 | the connect vector `[openvpn3, "session-start", "--config", config.ovpn]` (a constant) |
| OpenVpn3Cli.FixedCommandsReachProcess | main.py:84-100 | the poll and connect vectors hold no `None`, so a completed run of either yields its stripped standard output |
| OpenVpn3Cli.DisconnectCommand | main.py:105-111 | the disconnect vector has five elements starting with the executable; it holds `None` exactly when no id is stored, and otherwise ends in the stored id |
| OpenVpn3Cli.DisconnectWithoutIdYieldsEmpty | main.py:103-112 | disconnecting with no stored id yields `""` whatever the environment does |
| SessionParser.IsConnected | main.py:87 | connected exactly when `Client connected` occurs somewhere in the listing |
| SessionParser.ShortOutputNotConnected | main.py:87 | a listing shorter than the marker, the empty output of a failed run included, is not connected |
| SessionParser.LineSessionId | main.py:117-119 | a line yields an id exactly when its stripped form starts with `Path: `, and such an id has no colon and no surrounding whitespace |
| SessionParser.LineSessionIdAfterLastColon | main.py:119 | a `Path: ` line always has a colon, and its id is the stripped text after the line's last colon |
| SessionParser.LastSomeStep | main.py:116-119 | extending the forward scan by one line overwrites the result exactly when that line yields an id |
| SessionParser.LastSome | main.py:116-119 | the id left by scanning the lines forward and overwriting on every line that yields one (definition; its properties are the `LastSome…` lemmas) |
| SessionParser.LastSomeIsLastMatch | main.py:116-119 | the line that yields an id and has no later line yielding one decides the result |
| SessionParser.LastSomeNone | main.py:116-119 | no result exactly when no line yields an id; otherwise the result is some line's id |
| SessionParser.ExtractedSessionId | main.py:114-119 | the extracted id, when there is one, has no colon and no surrounding whitespace |
| SessionParser.HeaderThenPath | main.py:114-119 | a header line, `Path: <path>` and a final newline store `<path>` whole |
| SessionParser.SecondPathLineWins | main.py:114-119 | with two `Path: ` lines the second line's path is stored |
| SessionParser.ExtractedIdIsWholePath | main.py:119 | `Path: /net/openvpn/v3/sessions/abc123` stores the whole path, not `abc123` |
| SessionParser.PathLineId | main.py:117-119 | `Path: <path>` for a colon-free path without surrounding whitespace yields that path |
| Tray.ExtractionTakesLastPathLine | main.py:114-119 | when some stripped line starts with `Path: `, the stored id is the stripped text after the last colon of the last such line |
| Tray.ExtractionKeepsIdWithoutPathLine | main.py:114-119 | no id is extracted exactly when no stripped line starts with `Path: `, and then the stored id is unchanged |
| Tray.IsTruthy | main.py:70 | Python truthiness of `current_session_id`: neither `None` nor `""` (definition; `ExitCommands` states its use) |
| Tray.AfterExtraction | main.py:114-119 | the id after extraction is absent only when it was absent and no line yields one; when it changes, the new id is colon-free and unpadded; a well-formed id stays well formed |
| Tray.Checked | main.py:53-91 | after a check the icon is `"enabled"` exactly when `Client connected` occurs; the id changes only on a connected listing, and then to the extracted id; a stored id is never cleared (the connected case is `CheckedStoresLastPathLine`) |
| Tray.CheckedStoresLastPathLine | main.py:53-89 | a connected listing shows `"enabled"` and stores the stripped text after the last colon of its last `Path: ` line |
| Tray.ExitCommands | main.py:69-71 | Exit issues either nothing or exactly the disconnect of the stored id followed by the poll, the latter exactly when the id is neither `None` nor `""`; it never hands `None` to the runner |
| Tray.CheckedFollowsListing | main.py:53-58 | a check shows `"enabled"` exactly when `Client connected` occurs in the listing; a check that finds no connection changes only the icon |
| Tray.CheckedKeepsIdWellFormed | main.py:83-91 | a check keeps the stored id free of colons and surrounding whitespace |
| Tray.FailedListingShowsDisabled | main.py:121-130 | a raising or empty `sessions-list` run shows `"disabled"` and keeps the stored id |
| Tray.CheckedIdempotent | main.py:53-58 | two checks against the same listing give the state one check gives |
| Tray.CheckedNeverClearsId | main.py:83-91 | once an id is stored, no check removes it |
| Tray.ConnectDisconnectRound | main.py:74-91 | a connected listing with `Path: /s/xyz` stores `/s/xyz`; disconnect names it; a later disconnected listing keeps it, so Exit still disconnects it |
| Tray.TrayApp.constructor | main.py:22-38 | a new tray shows `"disabled"`, stores no id and has issued no command |
| Tray.TrayApp.SetTrayIcon | main.py:65-67 | the icon becomes the named one |
| Tray.TrayApp.GetSubprocessOutput | main.py:121-130 | records the command once and returns the fail-soft runner's result |
| Tray.TrayApp.SetCurrentSessionId | main.py:114-119 | the forward loop over the lines leaves the id `AfterExtraction` gives and keeps it well formed |
| Tray.TrayApp.OvpnConnectionExists | main.py:83-91 | issues `[cmd, "sessions-list"]` once, returns whether the listing is connected, and extracts the id only when it is |
| Tray.TrayApp.CheckSession | main.py:53-58 | issues one `sessions-list` and moves to the state `Checked` gives for its output |
| Tray.TrayApp.TimerLoop | main.py:50-51 | one tick is one check |
| Tray.TrayApp.OvpnConnect | main.py:93-101 | issues exactly `[cmd, "session-start", "--config", config_path]` and changes no state |
| Tray.TrayApp.OvpnDisconnect | main.py:103-112 | issues exactly `[cmd, "session-manage", "--disconnect", "--session-path", current_session_id]`, `None` included, and changes no state |
| Tray.TrayApp.ActionConnect | main.py:74-76 | issues session-start then sessions-list and ends in the checked state |
| Tray.TrayApp.ActionDisconnect | main.py:79-81 | issues the disconnect for the id held before, then sessions-list, and ends in the checked state |
| Tray.TrayApp.ActionExit | main.py:69-72 | issues disconnect and sessions-list only when the stored id is neither `None` nor empty; otherwise issues nothing and changes nothing |

## Left out

- The Qt objects (`QApplication`, `QSystemTrayIcon`, `QMenu`, `QAction`, `QIcon`) are user interface. The icon is the enum `Icon`.
- `QTimer` scheduling and the event loop are framework dispatch. One tick is one call of `TrayApp.TimerLoop`, and `CHECK_CONNECTION_TIMEOUT` has no role in the model.
- `sys.exit` and `app.quit` end the process, so `ActionExit` models only the commands issued before quitting.
- `load_dotenv` and the environment lookups are configuration input. The executable and the configuration path are constants at their defaults.
- `subprocess.run` and UTF-8 decoding are foreign process input and output. They are replaced by the `ProcessOutcome` parameter. An undecodable output is one of the cases `Raised` covers.
- Logging has no effect on behaviour.
- A `subprocess.run` call that never returns is not modelled. The call has no timeout, so a client that never exits would block the check, every menu action and every later tick. `ProcessOutcome` has only a completed and a raised case, and every handler is modelled as returning.
