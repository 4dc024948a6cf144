/**
 * The parts of Python's `str` that the annotation readers rely on:
 * `isspace`, `strip()`, `split()` without arguments, line iteration over a
 * text file, `startswith`/`endswith` and searching for one character.
 */
module Text {
  import opened Wrappers
  import opened Sequences

  /** `str.isspace()` for one character: the separators of `split()` and `strip()`. */
  predicate IsSpace(c: char) {
    || c == ' '
    || ('\t' <= c <= '\r')
    || ('\U{1C}' <= c <= '\U{1F}')
    || c == '\U{85}' || c == '\U{A0}' || c == '\U{1680}'
    || ('\U{2000}' <= c <= '\U{200A}')
    || c == '\U{2028}' || c == '\U{2029}' || c == '\U{202F}' || c == '\U{205F}' || c == '\U{3000}'
  }

  predicate AllSpace(s: string) {
    forall i :: 0 <= i < |s| ==> IsSpace(s[i])
  }

  predicate NoSpace(s: string) {
    forall i :: 0 <= i < |s| ==> !IsSpace(s[i])
  }

  /** A string that `strip()` leaves alone. */
  predicate Stripped(s: string) {
    s == [] || (!IsSpace(s[0]) && !IsSpace(s[|s| - 1]))
  }

  /** Number of leading whitespace characters. */
  function LeadingSpace(s: string): (n: nat)
    ensures n <= |s| && AllSpace(s[..n])
    ensures n < |s| ==> !IsSpace(s[n])
  {
    if s == [] || !IsSpace(s[0]) then 0
    else
      var m := LeadingSpace(s[1..]);
      assert s[..m + 1] == [s[0]] + s[1..][..m];
      m + 1
  }

  /** Length of `s` once its trailing whitespace is removed. */
  function TrimmedLength(s: string): (n: nat)
    ensures n <= |s| && AllSpace(s[n..])
    ensures n > 0 ==> !IsSpace(s[n - 1])
  {
    if s == [] || !IsSpace(s[|s| - 1]) then |s|
    else
      var m := TrimmedLength(s[..|s| - 1]);
      assert s[m..] == s[..|s| - 1][m..] + [s[|s| - 1]];
      m
  }

  /** `str.strip()`: the slice left after removing whitespace at both ends. */
  function Strip(s: string): string {
    var t := s[LeadingSpace(s)..];
    t[..TrimmedLength(t)]
  }

  /**
   * `Strip(s)` is the slice of `s` that starts at its first non-whitespace
   * character and ends at its last one; only whitespace is removed.
   */
  lemma StripSlice(s: string)
    ensures var r := Strip(s);
      && Stripped(r)
      && LeadingSpace(s) + |r| <= |s|
      && r == s[LeadingSpace(s)..LeadingSpace(s) + |r|]
      && AllSpace(s[LeadingSpace(s) + |r|..])
      && (r == [] <==> AllSpace(s))
  {
    var a := LeadingSpace(s);
    var t := s[a..];
    var m := TrimmedLength(t);
    var r := Strip(s);
    assert r == t[..m] == s[a..a + m];
    assert s[a + m..] == t[m..];
    if m > 0 {
      assert r[0] == s[a] && r[m - 1] == t[m - 1];
    } else {
      assert a == |s|;
      forall i | 0 <= i < |s| ensures IsSpace(s[i]) {
        assert s[i] == s[..a][i];
      }
    }
  }

  /** Stripping a string padded with whitespace on both sides gives the string back. */
  lemma StripPadded(pre: string, t: string, post: string)
    requires AllSpace(pre) && AllSpace(post) && Stripped(t)
    ensures Strip(pre + t + post) == t
  {
    var s := pre + t + post;
    StripSlice(s);
    if t == [] {
      assert AllSpace(s) by {
        forall i | 0 <= i < |s| ensures IsSpace(s[i]) {
          if i < |pre| { assert s[i] == pre[i]; } else { assert s[i] == post[i - |pre|]; }
        }
      }
    } else {
      StripPaddedWord(pre, t, post);
    }
  }

  lemma StripPaddedWord(pre: string, t: string, post: string)
    requires AllSpace(pre) && AllSpace(post) && Stripped(t) && t != []
    ensures Strip(pre + t + post) == t
  {
    var s := pre + t + post;
    LeadingSpaceOfPadded(pre, t + post);
    AppendAssoc(pre, t, post);
    assert s[|pre|..] == t + post;
    TrimmedLengthOfPadded(t, post);
    assert (t + post)[..|t|] == t;
  }

  lemma {:induction false} TrimmedLengthOfPadded(u: string, post: string)
    requires AllSpace(post) && u != [] && !IsSpace(u[|u| - 1])
    ensures TrimmedLength(u + post) == |u|
    decreases |post|
  {
    if post != [] {
      var last := |post| - 1;
      assert (u + post)[..|u + post| - 1] == u + post[..last];
      assert IsSpace(post[last]);
      TrimmedLengthOfPadded(u, post[..last]);
    } else {
      assert u + post == u;
    }
  }

  lemma {:induction false} LeadingSpaceOfPadded(pre: string, u: string)
    requires AllSpace(pre) && u != [] && !IsSpace(u[0])
    ensures LeadingSpace(pre + u) == |pre|
  {
    if pre != [] {
      assert (pre + u)[1..] == pre[1..] + u;
      LeadingSpaceOfPadded(pre[1..], u);
    } else {
      assert pre + u == u;
    }
  }

  /** Length of the leading run of non-whitespace characters. */
  function WordLength(s: string): (n: nat)
    ensures n <= |s| && NoSpace(s[..n])
    ensures n < |s| ==> IsSpace(s[n])
  {
    if s == [] || IsSpace(s[0]) then 0
    else
      var m := WordLength(s[1..]);
      assert s[..m + 1] == [s[0]] + s[1..][..m];
      m + 1
  }

  /** `str.split()` without arguments: the maximal runs of non-whitespace characters, in order. */
  function Split(s: string): (r: seq<string>)
    ensures forall i :: 0 <= i < |r| ==> r[i] != [] && NoSpace(r[i])
    decreases |s|
  {
    if s == [] then []
    else if IsSpace(s[0]) then Split(s[1..])
    else
      var n := WordLength(s);
      [s[..n]] + Split(s[n..])
  }

  /** Words joined by single spaces, the inverse of `Split` on well-formed words. */
  function JoinWords(ws: seq<string>): string {
    if ws == [] then []
    else if |ws| == 1 then ws[0]
    else ws[0] + " " + JoinWords(ws[1..])
  }

  /** Splitting words joined by spaces gives the words back. */
  lemma {:induction false} SplitJoinWords(ws: seq<string>)
    requires forall i :: 0 <= i < |ws| ==> ws[i] != [] && NoSpace(ws[i])
    ensures Split(JoinWords(ws)) == ws
  {
    if |ws| == 1 {
      SplitWord(ws[0], []);
      assert ws[0] + [] == ws[0];
    } else if |ws| > 1 {
      var w, tail := ws[0], JoinWords(ws[1..]);
      AppendAssoc(w, " ", tail);
      SplitWord(w, " " + tail);
      assert (" " + tail)[1..] == tail;
      SplitJoinWords(ws[1..]);
      assert ws == [w] + ws[1..];
    }
  }

  /** A word followed by a space or nothing is split off as the first word. */
  lemma SplitWord(w: string, rest: string)
    requires w != [] && NoSpace(w)
    requires rest == [] || IsSpace(rest[0])
    ensures Split(w + rest) == [w] + Split(rest)
  {
    var s := w + rest;
    WordLengthOfWord(w, rest);
    assert s[..|w|] == w;
    assert s[|w|..] == rest;
    assert !IsSpace(s[0]);
  }

  lemma {:induction false} WordLengthOfWord(w: string, rest: string)
    requires w != [] && NoSpace(w)
    requires rest == [] || IsSpace(rest[0])
    ensures WordLength(w + rest) == |w|
  {
    if |w| > 1 {
      assert (w + rest)[1..] == w[1..] + rest;
      WordLengthOfWord(w[1..], rest);
    } else {
      assert (w + rest)[1..] == rest;
    }
  }

  predicate IsLineBreak(c: char) {
    c == '\n' || c == '\r'
  }

  predicate NoLineBreak(s: string) {
    forall i :: 0 <= i < |s| ==> !IsLineBreak(s[i])
  }

  /** Position of the first line break, or `|s|` when there is none. */
  function LineLength(s: string): (n: nat)
    ensures n <= |s| && NoLineBreak(s[..n])
    ensures n < |s| ==> IsLineBreak(s[n])
  {
    if s == [] || IsLineBreak(s[0]) then 0
    else
      var m := LineLength(s[1..]);
      assert s[..m + 1] == [s[0]] + s[1..][..m];
      m + 1
  }

  /**
   * The lines of a text file, without their terminators.  A line ends at
   * '\n' or '\r', so "\r\n" gives an extra blank line; every reader in this
   * model skips blank lines, which makes this agree with Python's
   * universal-newline reading.
   */
  function Lines(s: string): (r: seq<string>)
    ensures |r| >= 1
    ensures forall i :: 0 <= i < |r| ==> NoLineBreak(r[i])
    decreases |s|
  {
    var n := LineLength(s);
    if n == |s| then [s] else [s[..n]] + Lines(s[n + 1..])
  }

  /** Lines joined with '\n', the inverse of `Lines` on text without '\r'. */
  function JoinLines(ls: seq<string>): string
    requires |ls| >= 1
  {
    if |ls| == 1 then ls[0] else ls[0] + "\n" + JoinLines(ls[1..])
  }

  /** Splitting a text without '\r' into lines and joining them back gives the text. */
  lemma {:induction false} JoinLinesOfLines(s: string)
    requires forall i :: 0 <= i < |s| ==> s[i] != '\r'
    ensures JoinLines(Lines(s)) == s
    decreases |s|
  {
    var n := LineLength(s);
    if n < |s| {
      JoinLinesOfLines(s[n + 1..]);
      assert s[n] == '\n';
      assert s == s[..n] + "\n" + s[n + 1..];
    }
  }

  lemma {:induction false} LineLengthOfLine(l: string, rest: string)
    requires NoLineBreak(l) && (rest == [] || IsLineBreak(rest[0]))
    ensures LineLength(l + rest) == |l|
  {
    if l == [] {
      assert l + rest == rest;
    } else {
      assert (l + rest)[1..] == l[1..] + rest;
      LineLengthOfLine(l[1..], rest);
    }
  }

  /** Lines without breaks joined with '\n' split back into the same lines. */
  lemma {:induction false} LinesOfJoinLines(ls: seq<string>)
    requires |ls| >= 1 && forall i :: 0 <= i < |ls| ==> NoLineBreak(ls[i])
    ensures Lines(JoinLines(ls)) == ls
    decreases |ls|
  {
    if |ls| == 1 {
      LineLengthOfLine(ls[0], []);
      assert ls[0] + [] == ls[0];
    } else {
      LinesOfLine(ls[0], JoinLines(ls[1..]));
      LinesOfJoinLines(ls[1..]);
      assert ls == [ls[0]] + ls[1..];
    }
  }

  /** A line followed by '\n' is split off as the first line. */
  lemma LinesOfLine(l: string, rest: string)
    requires NoLineBreak(l)
    ensures Lines(l + "\n" + rest) == [l] + Lines(rest)
  {
    var s := l + "\n" + rest;
    AppendAssoc(l, "\n", rest);
    LineLengthOfLine(l, "\n" + rest);
    assert s[..|l|] == l;
    assert s[|l| + 1..] == rest;
  }

  predicate StartsWith(s: string, prefix: string) {
    |prefix| <= |s| && s[..|prefix|] == prefix
  }

  predicate EndsWith(s: string, suffix: string) {
    |suffix| <= |s| && s[|s| - |suffix|..] == suffix
  }

  /** `s.find(c)`: the first position of `c`, if any. */
  function FindFirst(s: string, c: char): (r: Option<nat>)
    ensures r.Some? ==> r.value < |s| && s[r.value] == c
    ensures r.Some? ==> forall k :: 0 <= k < r.value ==> s[k] != c
    ensures r.None? <==> forall k :: 0 <= k < |s| ==> s[k] != c
  {
    if s == [] then None
    else if s[0] == c then Some(0)
    else match FindFirst(s[1..], c)
      case None => None
      case Some(k) => Some(k + 1)
  }

  /** `s.rfind(c)`: the last position of `c`, or -1. */
  function FindLast(s: string, c: char): (r: int)
    ensures -1 <= r < |s|
  {
    if s == [] then -1
    else if s[|s| - 1] == c then |s| - 1
    else FindLast(s[..|s| - 1], c)
  }

  /** `FindLast` finds `c` when it returns a position, and no `c` follows that position. */
  lemma {:induction false} FindLastSpec(s: string, c: char)
    ensures FindLast(s, c) >= 0 ==> s[FindLast(s, c)] == c
    ensures forall k :: FindLast(s, c) < k < |s| ==> s[k] != c
  {
    if s != [] && s[|s| - 1] != c {
      FindLastSpec(s[..|s| - 1], c);
    }
  }
}
