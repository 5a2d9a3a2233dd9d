/** Python string operations the session supervisor relies on, with the
    semantics of CPython's `str` methods: `strip()` with no argument,
    `startswith`, `split(sep)` with an explicit one-character separator,
    `split(sep)[-1]`, and the `in` substring test. */
module PyText {

  /** `c.isspace()`: the characters CPython's `str.strip()` removes. */
  predicate IsSpace(c: char) {
    || ('\t' <= c <= '\r')
    || ('\U{1C}' <= c <= '\U{1F}')
    || c == ' '
    || c == '\U{85}'
    || c == '\U{A0}'
    || c == '\U{1680}'
    || ('\U{2000}' <= c <= '\U{200A}')
    || c == '\U{2028}'
    || c == '\U{2029}'
    || c == '\U{202F}'
    || c == '\U{205F}'
    || c == '\U{3000}'
  }

  /** Every character of `s` from index `i` up to `j` is whitespace. */
  ghost predicate SpaceBetween(s: string, i: nat, j: nat)
    requires i <= j <= |s|
  {
    forall k :: i <= k < j ==> IsSpace(s[k])
  }

  /** Neither the first nor the last character is whitespace. */
  predicate NoEdgeSpace(s: string) {
    s == [] || (!IsSpace(s[0]) && !IsSpace(s[|s| - 1]))
  }

  /** `r` is `s` with some whitespace removed at its two ends only. */
  ghost predicate PaddedBy(s: string, r: string) {
    exists a: nat :: a <= |s| - |r| && s[a..a + |r|] == r && SpaceBetween(s, 0, a) && SpaceBetween(s, a + |r|, |s|)
  }

  /** Length of the whitespace run at the start of `s`. */
  function LeadingSpaces(s: string): (n: nat)
    ensures n <= |s|
    ensures forall k :: 0 <= k < n ==> IsSpace(s[k])
    ensures n < |s| ==> !IsSpace(s[n])
  {
    if s == [] || !IsSpace(s[0]) then 0 else 1 + LeadingSpaces(s[1..])
  }

  /** Length of the whitespace run at the end of `s`. */
  function TrailingSpaces(s: string): (n: nat)
    ensures n <= |s|
    ensures forall k :: |s| - n <= k < |s| ==> IsSpace(s[k])
    ensures n < |s| ==> !IsSpace(s[|s| - n - 1])
  {
    if s == [] || !IsSpace(s[|s| - 1]) then 0 else 1 + TrailingSpaces(s[..|s| - 1])
  }

  /** `s.strip()`: from the first to the last non-whitespace character. */
  function Strip(s: string): (r: string)
    ensures NoEdgeSpace(r)
    ensures PaddedBy(s, r)
  {
    var a := LeadingSpaces(s);
    if a == |s| then
      assert s[a..a + 0] == [] && SpaceBetween(s, 0, a) && SpaceBetween(s, a + 0, |s|);
      []
    else
      var b := |s| - TrailingSpaces(s);
      assert a < b;
      assert s[a..b][0] == s[a] && s[a..b][b - a - 1] == s[b - 1];
      assert s[a..a + |s[a..b]|] == s[a..b];
      assert SpaceBetween(s, 0, a) && SpaceBetween(s, a + |s[a..b]|, |s|);
      s[a..b]
  }

  /** Stripping only removes characters. */
  lemma StripKeepsAbsent(s: string, c: char)
    requires c !in s
    ensures c !in Strip(s)
  {
  }

  /** Stripping is determined by its two promises: whatever string is
      obtained from `s` by removing only surrounding whitespace and has no
      whitespace at its own ends is `s.strip()`. */
  lemma StripUnique(s: string, x: string)
    requires NoEdgeSpace(x) && PaddedBy(s, x)
    ensures Strip(s) == x
  {
    var a: nat :| a <= |s| - |x| && s[a..a + |x|] == x && SpaceBetween(s, 0, a) && SpaceBetween(s, a + |x|, |s|);
    var b := a + |x|;
    if x == [] {
      StripAllSpace(s, a);
    } else {
      assert s[a..b][0] == s[a] && s[a..b][|x| - 1] == s[b - 1];
      StripBetween(s, a, b);
    }
  }

  /** A string made of whitespace only strips to the empty string. */
  lemma StripAllSpace(s: string, a: nat)
    requires a <= |s| && SpaceBetween(s, 0, a) && SpaceBetween(s, a, |s|)
    ensures Strip(s) == []
  {
    LeadingSpacesAt(s, |s|);
  }

  /** Whitespace up to `a`, from `b` on, and non-whitespace at `a` and
      `b - 1`: the strip is `s[a..b]`. */
  lemma StripBetween(s: string, a: nat, b: nat)
    requires a < b <= |s| && SpaceBetween(s, 0, a) && SpaceBetween(s, b, |s|)
    requires !IsSpace(s[a]) && !IsSpace(s[b - 1])
    ensures Strip(s) == s[a..b]
  {
    LeadingSpacesAt(s, a);
    TrailingSpacesAt(s, b);
  }

  /** The leading whitespace run ends at the first non-whitespace index. */
  lemma LeadingSpacesAt(s: string, a: nat)
    requires a <= |s| && SpaceBetween(s, 0, a) && (a < |s| ==> !IsSpace(s[a]))
    ensures LeadingSpaces(s) == a
  {
  }

  /** The trailing whitespace run starts after the last non-whitespace index. */
  lemma TrailingSpacesAt(s: string, b: nat)
    requires b <= |s| && SpaceBetween(s, b, |s|) && (0 < b ==> !IsSpace(s[b - 1]))
    ensures TrailingSpaces(s) == |s| - b
  {
  }

  lemma StripIdempotent(s: string)
    ensures Strip(Strip(s)) == Strip(s)
  {
    var r := Strip(s);
    assert r[0..0 + |r|] == r && SpaceBetween(r, 0, 0) && SpaceBetween(r, 0 + |r|, |r|);
    StripUnique(r, r);
  }

  /** A string with no surrounding whitespace is its own strip. */
  lemma StripNoEdgeSpace(s: string)
    requires NoEdgeSpace(s)
    ensures Strip(s) == s
  {
    assert s[0..0 + |s|] == s && SpaceBetween(s, 0, 0) && SpaceBetween(s, 0 + |s|, |s|);
    StripUnique(s, s);
  }

  /** `s.startswith(p)`. */
  predicate StartsWith(s: string, p: string): (b: bool)
    ensures b <==> |p| <= |s| && forall k {:trigger p[k]} :: 0 <= k < |p| ==> s[k] == p[k]
  {
    |p| <= |s| && s[..|p|] == p
  }

  /** `pat` occurs in `text` starting at index `i`. */
  predicate OccursAt(text: string, pat: string, i: nat) {
    i + |pat| <= |text| && text[i..i + |pat|] == pat
  }

  /** `pat in text` for strings. */
  function Contains(text: string, pat: string): (b: bool)
    ensures b <==> exists i: nat :: OccursAt(text, pat, i)
    decreases |text|
  {
    if |text| < |pat| then false
    else if text[..|pat|] == pat then
      assert OccursAt(text, pat, 0);
      true
    else
      var b := Contains(text[1..], pat);
      assert b ==> exists i: nat :: OccursAt(text, pat, i) by {
        if b {
          var j: nat :| OccursAt(text[1..], pat, j);
          assert text[1..][j..j + |pat|] == text[j + 1..j + 1 + |pat|];
          assert OccursAt(text, pat, j + 1);
        }
      }
      assert (exists i: nat :: OccursAt(text, pat, i)) ==> b by {
        if i: nat :| OccursAt(text, pat, i) {
          assert i != 0;
          assert text[1..][i - 1..i - 1 + |pat|] == text[i..i + |pat|];
          assert OccursAt(text[1..], pat, i - 1);
        }
      }
      b
  }

  /** `s.split(sep)` for a one-character separator: the pieces between
      consecutive separators, always at least one (`"".split(sep) == [""]`). */
  function Split(s: string, sep: char): (parts: seq<string>)
    ensures |parts| >= 1
    ensures forall p :: p in parts ==> sep !in p
  {
    if s == [] then [[]]
    else
      var rest := Split(s[1..], sep);
      if s[0] == sep then [[]] + rest
      else [[s[0]] + rest[0]] + rest[1..]
  }

  /** `sep.join(parts)`, the inverse of `Split`. */
  function Join(parts: seq<string>, sep: char): string {
    if parts == [] then []
    else if |parts| == 1 then parts[0]
    else parts[0] + [sep] + Join(parts[1..], sep)
  }

  lemma {:induction false} JoinSplit(s: string, sep: char)
    ensures Join(Split(s, sep), sep) == s
  {
    if s != [] {
      JoinSplit(s[1..], sep);
      var rest := Split(s[1..], sep);
      if s[0] != sep {
        if |rest| == 1 {
          assert Join(Split(s, sep), sep) == [s[0]] + rest[0];
        } else {
          assert rest == [rest[0]] + rest[1..];
          assert Join(Split(s, sep), sep) == [s[0]] + rest[0] + [sep] + Join(rest[1..], sep);
        }
      }
    }
  }

  lemma {:induction false} SplitJoin(parts: seq<string>, sep: char)
    requires |parts| >= 1
    requires forall p :: p in parts ==> sep !in p
    ensures Split(Join(parts, sep), sep) == parts
  {
    if |parts| == 1 {
      SplitNoSeparator(parts[0], sep);
    } else {
      SplitJoin(parts[1..], sep);
      SplitAtFirst(parts[0], Join(parts[1..], sep), sep);
      assert parts == [parts[0]] + parts[1..];
    }
  }

  /** A string without the separator splits into itself alone. */
  lemma {:induction false} SplitNoSeparator(s: string, sep: char)
    requires sep !in s
    ensures Split(s, sep) == [s]
  {
    if s != [] {
      SplitNoSeparator(s[1..], sep);
      assert [s[0]] + s[1..] == s;
    }
  }

  /** Splitting at the first separator: `(a + sep + b).split(sep)` is `[a]`
      followed by `b.split(sep)` when `a` holds no separator. */
  lemma {:induction false} SplitAtFirst(a: string, b: string, sep: char)
    requires sep !in a
    ensures Split(a + [sep] + b, sep) == [a] + Split(b, sep)
  {
    if a == [] {
      assert [sep] + b == ([sep] + b)[..1] + b;
      assert ([sep] + b)[1..] == b;
    } else {
      SplitAtFirst(a[1..], b, sep);
      assert (a + [sep] + b)[1..] == a[1..] + [sep] + b;
      assert [a[0]] + a[1..] == a;
    }
  }

  /** Two separator-free pieces joined by one separator split back apart. */
  lemma SplitTwo(a: string, b: string, sep: char)
    requires sep !in a && sep !in b
    ensures Split(a + [sep] + b, sep) == [a, b]
  {
    SplitAtFirst(a, b, sep);
    SplitNoSeparator(b, sep);
  }

  /** A trailing separator leaves an empty last piece. */
  lemma SplitTwoTerminated(a: string, b: string, sep: char)
    requires sep !in a && sep !in b
    ensures Split(a + [sep] + b + [sep], sep) == [a, b, []]
  {
    SplitAtFirst(b, [], sep);
    assert b + [sep] + [] == b + [sep];
    SplitAtFirst(a, b + [sep], sep);
    assert a + [sep] + (b + [sep]) == a + [sep] + b + [sep];
  }

  /** `s.split(sep)[-1]`: the text after the last separator, or all of `s`. */
  function AfterLast(s: string, sep: char): (f: string)
    ensures sep !in f
    ensures |f| <= |s| && s[|s| - |f|..] == f
    ensures |f| < |s| ==> s[|s| - |f| - 1] == sep
  {
    SplitLastIsSuffix(s, sep);
    var parts := Split(s, sep);
    assert parts[|parts| - 1] in parts;
    parts[|parts| - 1]
  }

  lemma {:induction false} SplitLastIsSuffix(s: string, sep: char)
    ensures var parts := Split(s, sep); var f := parts[|parts| - 1];
            && |f| <= |s| && s[|s| - |f|..] == f
            && (|f| < |s| ==> s[|s| - |f| - 1] == sep)
            && (|parts| > 1 <==> |f| < |s|)
  {
    if s != [] {
      SplitLastIsSuffix(s[1..], sep);
      var rest := Split(s[1..], sep);
      var f := rest[|rest| - 1];
      assert s[1..][|s| - 1 - |f|..] == s[|s| - |f|..];
      assert |f| < |s| - 1 ==> s[|s| - |f| - 1] == s[1..][|s| - 1 - |f| - 1];
      var parts := Split(s, sep);
      assert s[0] == sep || |rest| > 1 ==> parts[|parts| - 1] == f;
      if s[0] != sep && |rest| == 1 {
        JoinSplit(s[1..], sep);
        assert Split(s, sep) == [[s[0]] + f];
        assert s == [s[0]] + s[1..];
      }
    }
  }
}
