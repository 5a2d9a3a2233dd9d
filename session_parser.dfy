/** Reading the text `openvpn3 sessions-list` prints: whether a client is
    connected, and which session path `set_current_session_id` stores. */
module SessionParser {
  import opened Wrappers
  import opened PyText

  /** The phrase whose presence anywhere in the listing means "connected". */
  const ConnectedMarker: string := "Client connected"

  /** The prefix of a stripped listing line that carries the session path. */
  const PathPrefix: string := "Path: "

  /** `"Client connected" in out`. */
  function IsConnected(out: string): (connected: bool)
    ensures connected <==> exists i: nat :: OccursAt(out, ConnectedMarker, i)
  {
    Contains(out, ConnectedMarker)
  }

  /** Fewer characters than the marker cannot contain it; in particular
      the empty output of a failed run is "not connected". */
  lemma ShortOutputNotConnected(out: string)
    requires |out| < |ConnectedMarker|
    ensures !IsConnected(out)
  {
  }

  /** What a stored session id can look like: no colon, and no whitespace
      at either end. */
  predicate IsStoredId(id: string) {
    ':' !in id && NoEdgeSpace(id)
  }

  /** The id one raw line of the listing yields, if any: the line is
      stripped, and when it starts with `Path: ` the id is the text after
      its last colon, stripped. */
  function LineSessionId(rawLine: string): (id: Option<string>)
    ensures id.Some? <==> StartsWith(Strip(rawLine), PathPrefix)
    ensures id.Some? ==> IsStoredId(id.value)
  {
    var line := Strip(rawLine);
    if StartsWith(line, PathPrefix) then
      StripKeepsAbsent(AfterLast(line, ':'), ':');
      Some(Strip(AfterLast(line, ':')))
    else None
  }

  /** A `Path: ` line always has a colon (the one in the prefix), and the id
      is the stripped text after the last colon of the stripped line. */
  lemma LineSessionIdAfterLastColon(rawLine: string)
    requires StartsWith(Strip(rawLine), PathPrefix)
    ensures var line := Strip(rawLine);
            var j := |line| - |AfterLast(line, ':')| - 1;
            && 0 <= j < |line| && line[j] == ':' && ':' !in line[j + 1..]
            && LineSessionId(rawLine) == Some(Strip(line[j + 1..]))
  {
    var line := Strip(rawLine);
    var f := AfterLast(line, ':');
    assert line[..6] == PathPrefix;
    assert line[4] == line[..6][4] == ':';
    assert ':' in line;
    var j := |line| - |f| - 1;
    assert line[j + 1..] == f;
  }

  /** The last `Some` that `f` yields over `xs`: scanning forward and
      overwriting on every `Some` leaves exactly this one. */
  function LastSome<T, U>(xs: seq<T>, f: T -> Option<U>): Option<U> {
    if xs == [] then None
    else if f(xs[|xs| - 1]).Some? then f(xs[|xs| - 1])
    else LastSome(xs[..|xs| - 1], f)
  }

  /** Extending the scan by one element. */
  lemma LastSomeStep<T, U>(xs: seq<T>, f: T -> Option<U>, n: nat)
    requires n < |xs|
    ensures LastSome(xs[..n + 1], f) == if f(xs[n]).Some? then f(xs[n]) else LastSome(xs[..n], f)
  {
    assert xs[..n + 1][..n] == xs[..n];
  }

  /** If element `k` yields `Some` and no later element does, element `k`
      decides the result. */
  lemma {:induction false} LastSomeIsLastMatch<T, U>(xs: seq<T>, f: T -> Option<U>, k: nat)
    requires k < |xs| && f(xs[k]).Some?
    requires forall j :: k < j < |xs| ==> f(xs[j]).None?
    ensures LastSome(xs, f) == f(xs[k])
  {
    if k < |xs| - 1 {
      var init := xs[..|xs| - 1];
      assert init[k] == xs[k];
      forall j | k < j < |init| ensures f(init[j]).None? {
        assert init[j] == xs[j];
      }
      LastSomeIsLastMatch(init, f, k);
    }
  }

  /** The result is `None` exactly when no element yields `Some`, and
      otherwise it is what some element yields. */
  lemma {:induction false} LastSomeNone<T, U>(xs: seq<T>, f: T -> Option<U>)
    ensures LastSome(xs, f).None? <==> forall k :: 0 <= k < |xs| ==> f(xs[k]).None?
    ensures LastSome(xs, f).Some? ==> exists k :: 0 <= k < |xs| && f(xs[k]) == LastSome(xs, f)
  {
    if xs != [] {
      var init := xs[..|xs| - 1];
      LastSomeNone(init, f);
      assert forall k :: 0 <= k < |init| ==> init[k] == xs[k];
    }
  }

  /** Two elements, the second yielding `Some`: the second decides. */
  lemma LastOfTwo<T, U>(a: T, b: T, f: T -> Option<U>)
    requires f(b).Some?
    ensures LastSome([a, b], f) == f(b)
  {
    LastSomeIsLastMatch([a, b], f, 1);
  }

  /** Three elements, the middle one yielding `Some` and the last `None`:
      the middle one decides. */
  lemma LastOfThreeMiddle<T, U>(a: T, b: T, c: T, f: T -> Option<U>)
    requires f(b).Some? && f(c).None?
    ensures LastSome([a, b, c], f) == f(b)
  {
    LastSomeIsLastMatch([a, b, c], f, 1);
  }

  /** The id `set_current_session_id(out)` stores, if it stores one: the
      output is split at every `\n` and the lines are scanned in order. */
  function ExtractedSessionId(out: string): (id: Option<string>)
    ensures id.Some? ==> IsStoredId(id.value)
  {
    LastSomeNone(Split(out, '\n'), LineSessionId);
    LastSome(Split(out, '\n'), LineSessionId)
  }

  /** A header line, then `Path: <path>`, then a final newline: the path
      is stored whole. */
  lemma {:induction false} HeaderThenPath(header: string, path: string)
    requires '\n' !in header && '\n' !in path && path != [] && IsStoredId(path)
    ensures ExtractedSessionId(header + ['\n'] + PathPrefix + path + ['\n']) == Some(path)
  {
    var line := PathPrefix + path;
    SplitTwoTerminated(header, line, '\n');
    assert header + ['\n'] + PathPrefix + path + ['\n'] == header + ['\n'] + line + ['\n'];
    PathLineId(line, path);
    EmptyLineHasNoId();
    LastOfThreeMiddle(header, line, [], LineSessionId);
  }

  /** Two `Path: ` lines: the second one's path is the one stored. */
  lemma {:induction false} SecondPathLineWins(first: string, second: string)
    requires '\n' !in first && first != [] && IsStoredId(first)
    requires '\n' !in second && second != [] && IsStoredId(second)
    ensures ExtractedSessionId(PathPrefix + first + ['\n'] + PathPrefix + second) == Some(second)
  {
    var line1, line2 := PathPrefix + first, PathPrefix + second;
    SplitTwo(line1, line2, '\n');
    assert PathPrefix + first + ['\n'] + PathPrefix + second == line1 + ['\n'] + line2;
    PathLineId(line2, second);
    LastOfTwo(line1, line2, LineSessionId);
  }

  /** The stored id is the whole session path, not its last segment: the
      path holds no colon, so the text after the line's last colon is all
      of it. */
  lemma ExtractedIdIsWholePath()
    ensures ExtractedSessionId("Some header" + ['\n'] + PathPrefix + "/net/openvpn/v3/sessions/abc123" + ['\n'])
            == Some("/net/openvpn/v3/sessions/abc123")
  {
    HeaderThenPath("Some header", "/net/openvpn/v3/sessions/abc123");
  }

  /** An empty line carries no id. */
  lemma EmptyLineHasNoId()
    ensures LineSessionId([]).None?
  {
    assert Strip([]) == [];
  }

  /** `Path: <path>` for a path without colons or surrounding whitespace
      yields that path. */
  lemma PathLineId(line: string, path: string)
    requires line == PathPrefix + path && path != [] && IsStoredId(path)
    ensures LineSessionId(line) == Some(path)
  {
    assert line[0] == 'P' && line[|line| - 1] == path[|path| - 1];
    StripNoEdgeSpace(line);
    assert StartsWith(line, PathPrefix);
    PathLineLastField(path);
    StripOneBlank(path);
  }

  /** The last colon of `Path: <path>` is the prefix's own when the path
      has none. */
  lemma PathLineLastField(path: string)
    requires ':' !in path
    ensures AfterLast(PathPrefix + path, ':') == [' '] + path
  {
    assert PathPrefix + path == "Path" + [':'] + ([' '] + path);
    SplitAtFirst("Path", [' '] + path, ':');
    SplitNoSeparator([' '] + path, ':');
  }

  /** One blank before a text without surrounding whitespace strips away. */
  lemma StripOneBlank(path: string)
    requires path != [] && NoEdgeSpace(path)
    ensures Strip([' '] + path) == path
  {
    var padded := [' '] + path;
    assert padded[1..] == path;
    StripBetween(padded, 1, |padded|);
  }
}
