/** The two regular expressions the extension reads `intuneme status`
    with (cmd/extension/containerManager.js): `/^Container:\s+(\w+)/m`
    and `/^Broker proxy:\s+(\w+)/m`, applied to the command's trimmed
    output. A search finds the leftmost line start where the key is
    followed by white space and a word, and captures that word. */
module StatusMatch {
  import opened Wrappers
  import opened Text

  /** JavaScript's `\s`: white space and line terminators. */
  predicate IsJsSpace(c: char) {
    || c == '\t' || c == '\n' || c == '\U{0B}' || c == '\U{0C}' || c == '\r' || c == ' '
    || c == '\U{A0}' || c == '\U{1680}' || ('\U{2000}' <= c <= '\U{200A}')
    || c == '\U{2028}' || c == '\U{2029}' || c == '\U{202F}' || c == '\U{205F}' || c == '\U{3000}'
    || c == '\U{FEFF}'
  }

  /** The characters after which `^` matches in multiline mode. */
  predicate IsLineTerminator(c: char) {
    c == '\n' || c == '\r' || c == '\U{2028}' || c == '\U{2029}'
  }

  /** JavaScript's `\w`. */
  predicate IsWordChar(c: char) {
    ('a' <= c <= 'z') || ('A' <= c <= 'Z') || ('0' <= c <= '9') || c == '_'
  }

  predicate TerminatorFree(s: string) {
    forall k :: 0 <= k < |s| ==> !IsLineTerminator(s[k])
  }

  /** JavaScript's `String.prototype.trim`. */
  function JsTrim(s: string): string {
    TrimRightWhere(TrimLeftWhere(s, IsJsSpace), IsJsSpace)
  }

  /** `t` reads the key, then the white space up to index `n`, then the
      word `w`, which no word character follows. */
  predicate Decomposes(t: string, key: string, n: nat, w: string) {
    && HasPrefix(t, key) && (|key| < n) && (n + |w| <= |t|)
    && (forall k :: |key| <= k < n ==> IsJsSpace(t[k]))
    && w != [] && t[n..n + |w|] == w
    && (forall k :: n <= k < n + |w| ==> IsWordChar(t[k]))
    && (n + |w| == |t| || !IsWordChar(t[n + |w|]))
  }

  /** The end of the run of characters satisfying `p` that starts at `i`. */
  function Span(s: string, i: nat, p: char -> bool): (j: nat)
    requires i <= |s|
    ensures i <= j <= |s|
    ensures forall k :: i <= k < j ==> p(s[k])
    ensures j < |s| ==> !p(s[j])
    decreases |s| - i
  {
    if i < |s| && p(s[i]) then Span(s, i + 1, p) else i
  }

  /** A run of `p` from `i` to `j` that stops at `j` is the span. */
  lemma {:induction false} SpanIs(s: string, i: nat, j: nat, p: char -> bool)
    requires i <= j <= |s|
    requires forall k :: i <= k < j ==> p(s[k])
    requires j < |s| ==> !p(s[j])
    ensures Span(s, i, p) == j
    decreases j - i
  {
    if i < j {
      SpanIs(s, i + 1, j, p);
    }
  }

  /** `key\s+(\w+)` anchored at the start of `t`: the captured word. Both
      repetitions are greedy. */
  function MatchKey(t: string, key: string): (r: Option<string>)
    ensures r.Some? ==> exists n :: Decomposes(t, key, n, r.value)
  {
    if !HasPrefix(t, key) then None
    else
      var n := Span(t, |key|, IsJsSpace);
      var e := Span(t, n, IsWordChar);
      if n == |key| || e == n then None
      else
        assert Decomposes(t, key, n, t[n..e]);
        Some(t[n..e])
  }

  /** The converse: whenever `t` reads the key, white space and a word,
      the match captures exactly that word. Since no character is both
      white space and a word character, there is only one way to read it. */
  lemma MatchKeyComplete(t: string, key: string, n: nat, w: string)
    requires Decomposes(t, key, n, w)
    ensures MatchKey(t, key) == Some(w)
  {
    assert !IsJsSpace(t[n]) by { assert IsWordChar(t[n]); }
    SpanIs(t, |key|, n, IsJsSpace);
    SpanIs(t, n, n + |w|, IsWordChar);
  }

  /** `^` in multiline mode: the start of the text or just after a line
      terminator. */
  predicate LineStart(s: string, i: nat) {
    i == 0 || (0 < i <= |s| && IsLineTerminator(s[i - 1]))
  }

  predicate MatchesAt(s: string, key: string, i: nat) {
    i <= |s| && LineStart(s, i) && MatchKey(s[i..], key).Some?
  }

  /** The leftmost line start at or after `i` where the pattern matches,
      or |s| + 1. */
  function FirstMatchAt(s: string, key: string, i: nat): (n: nat)
    requires i <= |s| + 1
    ensures i <= n <= |s| + 1
    ensures forall k :: i <= k < n ==> !MatchesAt(s, key, k)
    ensures n <= |s| ==> MatchesAt(s, key, n)
    decreases |s| + 1 - i
  {
    if i == |s| + 1 || MatchesAt(s, key, i) then i else FirstMatchAt(s, key, i + 1)
  }

  /** `s.match(/^key\s+(\w+)/m)`: the word captured at the leftmost match. */
  function Search(s: string, key: string): (r: Option<string>)
    ensures r.Some? <==> exists i :: 0 <= i <= |s| && MatchesAt(s, key, i)
    ensures r.Some? ==> exists i :: (0 <= i <= |s| && MatchesAt(s, key, i) && r == MatchKey(s[i..], key)
      && forall k :: 0 <= k < i ==> !MatchesAt(s, key, k))
  {
    var n := FirstMatchAt(s, key, 0);
    if n <= |s| then MatchKey(s[n..], key) else None
  }

  /** Positions that are not line starts are passed over. */
  lemma {:induction false} SkipNonStarts(s: string, key: string, i: nat, j: nat)
    requires i <= j <= |s| + 1
    requires forall k :: i <= k < j ==> !LineStart(s, k)
    ensures FirstMatchAt(s, key, i) == FirstMatchAt(s, key, j)
    decreases j - i
  {
    if i < j {
      SkipNonStarts(s, key, i + 1, j);
    }
  }

  /** After a line terminator the search proceeds as it would on the text
      that follows. */
  lemma {:induction false} SearchShift(p: string, r: string, key: string, i: nat)
    requires p != [] && IsLineTerminator(p[|p| - 1])
    requires i <= |r| + 1
    ensures FirstMatchAt(p + r, key, |p| + i) == |p| + FirstMatchAt(r, key, i)
    decreases |r| + 1 - i
  {
    var s := p + r;
    if i <= |r| {
      assert s[|p| + i..] == r[i..];
      assert LineStart(s, |p| + i) == LineStart(r, i);
      SearchShift(p, r, key, i + 1);
    }
  }

  /** A line `key word`, with `word` made of word characters. */
  predicate WordLine(line: string, key: string) {
    && HasPrefix(line, key) && |line| > |key| + 1 && line[|key|] == ' '
    && forall k :: |key| < k < |line| ==> IsWordChar(line[k])
  }

  /** The word of the first line that starts with the key. */
  function FirstKeyLine(lines: seq<string>, key: string): (r: Option<string>)
    ensures r.Some? <==> exists k :: 0 <= k < |lines| && HasPrefix(lines[k], key)
  {
    if lines == [] then None
    else if HasPrefix(lines[0], key) then
      (if |lines[0]| > |key| + 1 then Some(lines[0][|key| + 1..]) else Some(""))
    else
      var r := FirstKeyLine(lines[1..], key);
      assert forall k :: 1 <= k < |lines| ==> lines[k] == lines[1..][k - 1];
      r
  }

  /** A line that lacks the key still lacks it when a newline or nothing
      follows, since the key holds no line terminator. */
  lemma NoKeyThroughNewline(line: string, tail: string, key: string)
    requires TerminatorFree(key) && !HasPrefix(line, key)
    requires tail == [] || tail[0] == '\n'
    ensures !HasPrefix(line + tail, key)
  {
    var s := line + tail;
    if |key| <= |line| {
      assert s[..|key|] == line[..|key|];
    } else if |key| <= |s| {
      assert s[..|key|][|line|] == '\n';
      assert !IsLineTerminator(key[|line|]);
    }
  }

  /** How a line that opens the text reads. */
  lemma MatchFirstLine(line: string, tail: string, key: string)
    requires TerminatorFree(line) && TerminatorFree(key)
    requires tail == [] || tail[0] == '\n'
    requires HasPrefix(line, key) ==> WordLine(line, key)
    ensures MatchKey(line + tail, key) ==
      if HasPrefix(line, key) then Some(line[|key| + 1..]) else None
  {
    var s := line + tail;
    if HasPrefix(line, key) {
      var w := line[|key| + 1..];
      assert s[|key| + 1..|key| + 1 + |w|] == w;
      assert Decomposes(s, key, |key| + 1, w);
      MatchKeyComplete(s, key, |key| + 1, w);
    } else {
      NoKeyThroughNewline(line, tail, key);
    }
  }

  /** A first line without the key is passed over: the search goes on in
      the lines after it. */
  lemma SearchPastLine(line: string, r: string, key: string)
    requires TerminatorFree(line) && TerminatorFree(key) && !HasPrefix(line, key)
    ensures Search(line + "\n" + r, key) == Search(r, key)
  {
    var s := line + "\n" + r;
    FirstMatchPastLine(line, r, key);
    assert s[|line| + 1..] == r;
    SearchOfSuffix(s, r, key, |line| + 1);
  }

  /** A text whose leftmost match lies in its suffix `r`, at the place the
      leftmost match of `r` lies, captures what `r` does. */
  lemma SearchOfSuffix(s: string, r: string, key: string, off: nat)
    requires off <= |s| && s[off..] == r
    requires FirstMatchAt(s, key, 0) == off + FirstMatchAt(r, key, 0)
    ensures Search(s, key) == Search(r, key)
  {
    var n := FirstMatchAt(r, key, 0);
    if n <= |r| {
      assert s[off + n..] == r[n..];
    }
  }

  lemma FirstMatchPastLine(line: string, r: string, key: string)
    requires TerminatorFree(line) && TerminatorFree(key) && !HasPrefix(line, key)
    ensures FirstMatchAt(line + "\n" + r, key, 0) == |line| + 1 + FirstMatchAt(r, key, 0)
  {
    var s := line + "\n" + r;
    NoKeyThroughNewline(line, "\n" + r, key);
    assert s == line + ("\n" + r);
    assert !MatchesAt(s, key, 0);
    assert forall k :: 0 <= k < |line| ==> s[k] == line[k];
    assert forall k :: 1 <= k <= |line| ==> !LineStart(s, k);
    SkipNonStarts(s, key, 1, |line| + 1);
    assert s == (line + "\n") + r;
    SearchShift(line + "\n", r, key, 0);
  }

  /** A lone line without the key holds no match. */
  lemma SearchLoneLine(line: string, key: string)
    requires TerminatorFree(line) && TerminatorFree(key) && !HasPrefix(line, key)
    ensures Search(line, key) == None
  {
    NoKeyThroughNewline(line, "", key);
    assert line + "" == line;
    assert !MatchesAt(line, key, 0);
    assert forall k :: 1 <= k <= |line| ==> !LineStart(line, k);
    SkipNonStarts(line, key, 1, |line| + 1);
  }

  /** The pattern, searched for in lines joined by newlines, finds the
      first line that starts with the key, provided no line holds a line
      terminator and every line that starts with the key continues with a
      space and a word. */
  lemma {:induction false} SearchLines(lines: seq<string>, key: string)
    requires |lines| >= 1
    requires TerminatorFree(key)
    requires forall k :: 0 <= k < |lines| ==> TerminatorFree(lines[k])
    requires forall k :: 0 <= k < |lines| && HasPrefix(lines[k], key) ==> WordLine(lines[k], key)
    ensures Search(JoinWith(lines, "\n"), key) == FirstKeyLine(lines, key)
    decreases |lines|
  {
    var line := lines[0];
    var s := JoinWith(lines, "\n");
    if HasPrefix(line, key) {
      var tail := if |lines| == 1 then "" else "\n" + JoinWith(lines[1..], "\n");
      assert s == line + tail;
      MatchFirstLine(line, tail, key);
      assert MatchesAt(s, key, 0);
    } else if |lines| == 1 {
      SearchLoneLine(line, key);
    } else {
      SearchPastLine(line, JoinWith(lines[1..], "\n"), key);
      forall k | 0 <= k < |lines[1..]|
        ensures TerminatorFree(lines[1..][k])
        ensures HasPrefix(lines[1..][k], key) ==> WordLine(lines[1..][k], key)
      {
        assert lines[1..][k] == lines[k + 1];
      }
      SearchLines(lines[1..], key);
    }
  }
}
