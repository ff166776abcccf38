/**
  The parts of Python's built-in `str` and `bytes` that process.py leans on:
  `startswith`, `replace(old, new, 1)`, `strip()`, `splitlines()` and
  `sep.join(parts)`, written out with Python's own character classes.
 */
module Builtins {
  import opened Wrappers

  /** One element of a Python `bytes` value. */
  type byte = b: int | 0 <= b < 256

  predicate StartsWith(s: string, prefix: string) {
    |prefix| <= |s| && s[..|prefix|] == prefix
  }

  /** `pat` occurs in `s` at index `k`. */
  predicate OccursAt(s: string, pat: string, k: nat) {
    k + |pat| <= |s| && s[k..k + |pat|] == pat
  }

  /** `s.find(pat)`: the index of the first occurrence of `pat` in `s`. */
  function FindFirst(s: string, pat: string): (r: Option<nat>)
    ensures r.Some? ==> OccursAt(s, pat, r.value)
    ensures r.Some? ==> forall k: nat :: k < r.value ==> !OccursAt(s, pat, k)
    ensures r.None? ==> forall k: nat :: !OccursAt(s, pat, k)
    decreases |s|
  {
    if StartsWith(s, pat) then Some(0)
    else if s == [] then None
    else
      var r := FindFirst(s[1..], pat);
      assert !OccursAt(s, pat, 0);
      assert forall k: nat :: k > 0 ==> OccursAt(s, pat, k) == OccursAt(s[1..], pat, k - 1) by {
        forall k: nat | k > 0 ensures OccursAt(s, pat, k) == OccursAt(s[1..], pat, k - 1) {
          if k + |pat| <= |s| {
            DropOneSlice(s, k, k + |pat|);
          }
        }
      }
      match r
      case None => None
      case Some(i) => Some(i + 1)
  }

  lemma DropOneSlice(s: string, i: nat, j: nat)
    requires 0 < i <= j <= |s|
    ensures s[1..][i - 1..j - 1] == s[i..j]
  {
    assert forall k :: 0 <= k < j - i ==> s[1..][i - 1..j - 1][k] == s[i..j][k];
  }

  /** `s.replace(pat, rep, 1)`: only the first occurrence is replaced. */
  function ReplaceFirst(s: string, pat: string, rep: string): string {
    match FindFirst(s, pat)
    case None => s
    case Some(i) => s[..i] + rep + s[i + |pat|..]
  }

  /** When `s` starts with `p`, replacing the first `p` by nothing drops that prefix. */
  lemma ReplaceLeadingPrefix(s: string, p: string)
    requires StartsWith(s, p)
    ensures ReplaceFirst(s, p, "") == s[|p|..]
  {
  }

  /** The characters for which Python's `str.isspace()` holds; `strip()` removes these. */
  predicate IsSpace(c: char) {
    || ('\t' <= c <= '\r')                       // \t \n \v \f \r
    || ('\U{1C}' <= c <= '\U{1F}')                // file, group, record, unit separators
    || c == ' ' || c == '\U{85}' || c == '\U{A0}' || c == '\U{1680}'
    || ('\U{2000}' <= c <= '\U{200A}')
    || c == '\U{2028}' || c == '\U{2029}' || c == '\U{202F}' || c == '\U{205F}' || c == '\U{3000}'
  }

  /** `s.lstrip()` */
  function TrimStart(s: string): string {
    if s != [] && IsSpace(s[0]) then TrimStart(s[1..]) else s
  }

  /** `s.rstrip()` */
  function TrimEnd(s: string): string {
    if s != [] && IsSpace(s[|s| - 1]) then TrimEnd(s[..|s| - 1]) else s
  }

  /** `s.strip()` */
  function Strip(s: string): string {
    TrimEnd(TrimStart(s))
  }

  /** `lstrip` removes leading white space only, and all of it. */
  lemma {:induction false} TrimStartRemovesLeadingSpace(s: string)
    ensures var r := TrimStart(s); |r| <= |s| && r == s[|s| - |r|..] && (r == [] || !IsSpace(r[0]))
    ensures forall k :: 0 <= k < |s| - |TrimStart(s)| ==> IsSpace(s[k])
    decreases |s|
  {
    if s != [] && IsSpace(s[0]) {
      TrimStartRemovesLeadingSpace(s[1..]);
      assert s[1..][|s| - 1 - |TrimStart(s)|..] == s[|s| - |TrimStart(s)|..];
      forall k | 1 <= k < |s| - |TrimStart(s)| ensures IsSpace(s[k]) {
        assert s[k] == s[1..][k - 1];
      }
    } else {
      assert s[0..] == s;
    }
  }

  /** `rstrip` removes trailing white space only, and all of it. */
  lemma {:induction false} TrimEndRemovesTrailingSpace(s: string)
    ensures var r := TrimEnd(s); |r| <= |s| && r == s[..|r|] && (r == [] || !IsSpace(r[|r| - 1]))
    ensures forall k :: |TrimEnd(s)| <= k < |s| ==> IsSpace(s[k])
    decreases |s|
  {
    if s != [] && IsSpace(s[|s| - 1]) {
      TrimEndRemovesTrailingSpace(s[..|s| - 1]);
      assert s[..|s| - 1][..|TrimEnd(s)|] == s[..|TrimEnd(s)|];
      forall k | |TrimEnd(s)| <= k < |s| - 1 ensures IsSpace(s[k]) {
        assert s[k] == s[..|s| - 1][k];
      }
    } else {
      assert s[..|s|] == s;
    }
  }

  /**
    `strip` leaves the slice of `s` between its leading and its trailing white space:
    everything cut off is white space, and what is left neither starts nor ends with it.
   */
  lemma StripTrims(s: string)
    ensures 0 <= |s| - |TrimStart(s)| <= |s| - |TrimStart(s)| + |Strip(s)| <= |s|
    ensures Strip(s) == s[|s| - |TrimStart(s)|..|s| - |TrimStart(s)| + |Strip(s)|]
    ensures forall k :: 0 <= k < |s| - |TrimStart(s)| ==> IsSpace(s[k])
    ensures forall k :: |s| - |TrimStart(s)| + |Strip(s)| <= k < |s| ==> IsSpace(s[k])
    ensures Strip(s) == [] || (!IsSpace(Strip(s)[0]) && !IsSpace(Strip(s)[|Strip(s)| - 1]))
  {
    var t := TrimStart(s);
    TrimStartRemovesLeadingSpace(s);
    TrimEndRemovesTrailingSpace(t);
    assert Strip(s) == TrimEnd(t);
    SliceWithin(s, t, TrimEnd(t));
  }

  /** A prefix `r` of a suffix `t` of `s` is the slice of `s` that follows what `t` dropped. */
  lemma SliceWithin(s: string, t: string, r: string)
    requires |t| <= |s| && t == s[|s| - |t|..]
    requires |r| <= |t| && r == t[..|r|]
    requires forall k :: |r| <= k < |t| ==> IsSpace(t[k])
    requires t == [] || !IsSpace(t[0])
    ensures r == s[|s| - |t|..|s| - |t| + |r|]
    ensures forall k :: |s| - |t| + |r| <= k < |s| ==> IsSpace(s[k])
    ensures r != [] ==> !IsSpace(r[0])
  {
    var i := |s| - |t|;
    forall k | i + |r| <= k < |s|
      ensures IsSpace(s[k])
    {
      assert s[k] == t[k - i];
    }
    if r != [] {
      assert r[0] == t[0];
    }
  }

  /** The characters `str.splitlines()` ends a line at (`\r\n` counts as one boundary). */
  predicate IsLineBoundary(c: char) {
    || ('\n' <= c <= '\r')                        // \n \v \f \r
    || ('\U{1C}' <= c <= '\U{1E}')
    || c == '\U{85}' || c == '\U{2028}' || c == '\U{2029}'
  }

  predicate NoLineBoundary(t: string) {
    forall k :: 0 <= k < |t| ==> !IsLineBoundary(t[k])
  }

  /** Index of the first line boundary in `s`, or `|s|` when there is none. */
  function LineEnd(s: string): (i: nat)
    ensures i <= |s| && NoLineBoundary(s[..i])
    ensures i < |s| ==> IsLineBoundary(s[i])
  {
    if s == [] || IsLineBoundary(s[0]) then 0
    else
      var j := LineEnd(s[1..]);
      assert s[..j + 1] == [s[0]] + s[1..][..j];
      j + 1
  }

  /** `s.splitlines()`: the lines of `s` without their boundaries; no empty last line. */
  function SplitLines(s: string): (lines: seq<string>)
    ensures forall j :: 0 <= j < |lines| ==> NoLineBoundary(lines[j])
    decreases |s|
  {
    if s == [] then []
    else
      var i := LineEnd(s);
      if i == |s| then
        assert s[..i] == s;
        [s]
      else
        var width := if s[i] == '\r' && i + 1 < |s| && s[i + 1] == '\n' then 2 else 1;
        [s[..i]] + SplitLines(s[i + width..])
  }

  /** Each line followed by `"\n"`, all concatenated: what the output parser writes to stdout. */
  function JoinLines(lines: seq<string>): string {
    if lines == [] then "" else lines[0] + "\n" + JoinLines(lines[1..])
  }

  lemma JoinLinesAppend(lines: seq<string>, last: string)
    ensures JoinLines(lines + [last]) == JoinLines(lines) + last + "\n"
  {
    if lines != [] {
      assert (lines + [last])[1..] == lines[1..] + [last];
    }
  }

  /** `sep.join(parts)` */
  function Join(sep: string, parts: seq<string>): string {
    if parts == [] then ""
    else if |parts| == 1 then parts[0]
    else parts[0] + sep + Join(sep, parts[1..])
  }

  /** A join of parts none of which holds `c`, with a separator that does not either, holds no `c`. */
  lemma {:induction false} JoinAvoids(sep: string, parts: seq<string>, c: char)
    requires c !in sep
    requires forall i :: 0 <= i < |parts| ==> c !in parts[i]
    ensures c !in Join(sep, parts)
    decreases |parts|
  {
    if |parts| > 1 {
      JoinAvoids(sep, parts[1..], c);
    }
  }

  lemma {:induction false} LineEndAt(t: string, c: char, rest: string)
    requires NoLineBoundary(t) && IsLineBoundary(c)
    ensures LineEnd(t + [c] + rest) == |t|
    decreases |t|
  {
    var s := t + [c] + rest;
    if t != [] {
      assert s[1..] == t[1..] + [c] + rest;
      LineEndAt(t[1..], c, rest);
    }
  }

  lemma SplitLinesAfterNewline(t: string, rest: string)
    requires NoLineBoundary(t)
    ensures SplitLines(t + ['\n'] + rest) == [t] + SplitLines(rest)
  {
    var s := t + ['\n'] + rest;
    LineEndAt(t, '\n', rest);
    assert s[..|t|] == t;
    assert s[|t| + 1..] == rest;
  }

  /** Splitting what `JoinLines` produced gives the lines back, when no line holds a boundary. */
  lemma {:induction false} SplitJoinLines(lines: seq<string>)
    requires forall j :: 0 <= j < |lines| ==> NoLineBoundary(lines[j])
    ensures SplitLines(JoinLines(lines)) == lines
  {
    if lines != [] {
      var rest := JoinLines(lines[1..]);
      assert JoinLines(lines) == lines[0] + ['\n'] + rest;
      SplitLinesAfterNewline(lines[0], rest);
      SplitJoinLines(lines[1..]);
      assert [lines[0]] + lines[1..] == lines;
    }
  }

  /** The only line boundary `s` holds, if any, is `"\n"`. */
  predicate OnlyNewlineBreaks(s: string) {
    forall k :: 0 <= k < |s| && IsLineBoundary(s[k]) ==> s[k] == '\n'
  }

  /** What `JoinLines(SplitLines(s))` adds to `s`: a `"\n"` when the last line has none. */
  function MissingNewline(s: string): string {
    if s != [] && s[|s| - 1] != '\n' then "\n" else ""
  }

  lemma SplitLinesAtNewline(s: string, i: nat)
    requires i < |s| && LineEnd(s) == i && s[i] == '\n'
    ensures SplitLines(s) == [s[..i]] + SplitLines(s[i + 1..])
  {
  }

  lemma OnlyNewlineBreaksSuffix(s: string, i: nat)
    requires OnlyNewlineBreaks(s) && i <= |s|
    ensures OnlyNewlineBreaks(s[i..])
  {
    forall k | 0 <= k < |s[i..]| && IsLineBoundary(s[i..][k]) ensures s[i..][k] == '\n' {
      assert s[i..][k] == s[i + k];
    }
  }

  lemma SplitAround(s: string, i: nat)
    requires i < |s|
    ensures s == s[..i] + [s[i]] + s[i + 1..]
    ensures i + 1 < |s| ==> MissingNewline(s[i + 1..]) == MissingNewline(s)
  {
    if i + 1 < |s| {
      assert s[i + 1..][|s| - i - 2] == s[|s| - 1];
    }
  }

  /** One step of `JoinSplitLines`: the first line ends at a `"\n"` at index `i`. */
  lemma JoinSplitFirstLine(s: string, i: nat)
    requires OnlyNewlineBreaks(s) && i < |s| && LineEnd(s) == i
    ensures s == s[..i] + "\n" + s[i + 1..]
    ensures JoinLines(SplitLines(s)) == s[..i] + "\n" + JoinLines(SplitLines(s[i + 1..]))
    ensures OnlyNewlineBreaks(s[i + 1..])
    ensures MissingNewline(s[i + 1..]) == MissingNewline(s)
  {
    assert s[i] == '\n';
    SplitAround(s, i);
    SplitLinesAtNewline(s, i);
    var tail := SplitLines(s[i + 1..]);
    assert ([s[..i]] + tail)[1..] == tail;
    assert JoinLines([s[..i]] + tail) == s[..i] + "\n" + JoinLines(tail);
    OnlyNewlineBreaksSuffix(s, i + 1);
  }

  /** A text with no line boundary is one line. */
  lemma JoinSplitLastLine(s: string)
    requires s != [] && LineEnd(s) == |s|
    ensures JoinLines(SplitLines(s)) == s + MissingNewline(s)
  {
    assert s[..|s|] == s;
    assert SplitLines(s) == [s];
    assert !IsLineBoundary(s[|s| - 1]);
  }

  /**
    Joining the lines of a text whose only line boundary is `"\n"` gives the text back,
    with a `"\n"` added when its last line had none.
   */
  lemma {:induction false} JoinSplitLines(s: string)
    requires OnlyNewlineBreaks(s)
    ensures JoinLines(SplitLines(s)) == s + MissingNewline(s)
    decreases |s|
  {
    if s != [] {
      var i := LineEnd(s);
      if i < |s| {
        JoinSplitFirstLine(s, i);
        JoinSplitLines(s[i + 1..]);
        var m := MissingNewline(s);
        assert s[..i] + "\n" + (s[i + 1..] + m) == (s[..i] + "\n" + s[i + 1..]) + m;
      } else {
        JoinSplitLastLine(s);
      }
    }
  }
}
