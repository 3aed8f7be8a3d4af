/** The pieces of Go's `strings` package the program relies on, over
    `seq<char>`: trimming, splitting and joining on a one-character
    separator, substring search and prefix tests. */
module Text {

  /** Go's `unicode.IsSpace`: the Latin-1 spaces and the Unicode White_Space
      property above Latin-1. */
  predicate IsSpace(c: char) {
    || c == '\t' || c == '\n' || c == '\U{0B}' || c == '\U{0C}' || c == '\r' || c == ' '
    || c == '\U{85}' || c == '\U{A0}' || c == '\U{1680}'
    || ('\U{2000}' <= c <= '\U{200A}')
    || c == '\U{2028}' || c == '\U{2029}' || c == '\U{202F}' || c == '\U{205F}' || c == '\U{3000}'
  }

  /** Drops the leading characters satisfying `p` (Go's `strings.TrimLeftFunc`). */
  function TrimLeftWhere(s: string, p: char -> bool): (r: string)
    ensures |r| <= |s| && r == s[|s| - |r|..]
    ensures forall k :: 0 <= k < |s| - |r| ==> p(s[k])
    ensures r == [] || !p(r[0])
  {
    if |s| > 0 && p(s[0]) then TrimLeftWhere(s[1..], p) else s
  }

  /** Drops the trailing characters satisfying `p` (Go's `strings.TrimRightFunc`,
      and `strings.TrimRight` when `p` tests membership in the cutset). */
  function TrimRightWhere(s: string, p: char -> bool): (r: string)
    ensures |r| <= |s| && r == s[..|r|]
    ensures forall k :: |r| <= k < |s| ==> p(s[k])
    ensures r == [] || !p(r[|r| - 1])
  {
    if |s| > 0 && p(s[|s| - 1]) then TrimRightWhere(s[..|s| - 1], p) else s
  }

  /** Trailing newlines are trimmed from the end only: text ending in
      another character shields everything before it. */
  lemma {:induction false} TrimRightLFAfter(a: string, b: string)
    requires |a| > 0 && a[|a| - 1] != '\n'
    ensures TrimRightLF(a + b) == a + TrimRightLF(b)
    decreases |b|
  {
    if |b| == 0 {
      assert a + b == a;
    } else if b[|b| - 1] == '\n' {
      TrimRightLFAfter(a, b[..|b| - 1]);
      assert (a + b)[..|a + b| - 1] == a + b[..|b| - 1];
    }
  }

  /** Go's `strings.TrimSpace`. */
  function TrimSpace(s: string): string {
    TrimRightWhere(TrimLeftWhere(s, IsSpace), IsSpace)
  }

  /** Go's `strings.TrimRight(s, "\r\n")`. */
  function TrimRightCRLF(s: string): string {
    TrimRightWhere(s, c => c == '\r' || c == '\n')
  }

  /** Go's `strings.TrimRight(s, "\n")`. */
  function TrimRightLF(s: string): string {
    TrimRightWhere(s, c => c == '\n')
  }

  /** `s[i..j]` is `s` with the characters satisfying `p` cut from both
      ends, and no more. */
  predicate TrimmedTo(s: string, p: char -> bool, i: int, j: int, r: string) {
    0 <= i <= j <= |s| && r == s[i..j]
    && (forall k :: 0 <= k < i ==> p(s[k]))
    && (forall k :: j <= k < |s| ==> p(s[k]))
    && (r == [] || (!p(r[0]) && !p(r[|r| - 1])))
  }

  /** TrimSpace removes exactly the surrounding white space: the result is
      a slice of the input, everything cut away is white space, and the
      result neither starts nor ends with white space. */
  lemma TrimSpaceSpec(s: string)
    ensures exists i, j :: TrimmedTo(s, IsSpace, i, j, TrimSpace(s))
  {
    var i, j := TrimBothBounds(s, IsSpace);
    assert TrimmedTo(s, IsSpace, i, j, TrimSpace(s));
  }

  lemma TrimBothBounds(s: string, p: char -> bool) returns (i: nat, j: nat)
    ensures TrimmedTo(s, p, i, j, TrimRightWhere(TrimLeftWhere(s, p), p))
  {
    var l := TrimLeftWhere(s, p);
    i, j := CutBothEnds(s, l, TrimRightWhere(l, p), p);
  }

  /** A suffix `l` of `s` with a cut prefix, and a prefix `r` of `l` with a
      cut suffix, make `r` a slice of `s` cut at both ends. */
  lemma CutBothEnds(s: string, l: string, r: string, p: char -> bool) returns (i: nat, j: nat)
    requires |l| <= |s| && l == s[|s| - |l|..] && (l == [] || !p(l[0]))
    requires forall k :: 0 <= k < |s| - |l| ==> p(s[k])
    requires |r| <= |l| && r == l[..|r|] && (r == [] || !p(r[|r| - 1]))
    requires forall k :: |r| <= k < |l| ==> p(l[k])
    ensures TrimmedTo(s, p, i, j, r)
  {
    i := |s| - |l|;
    j := i + |r|;
    assert r == s[i..j];
    forall k | j <= k < |s| ensures p(s[k]) {
      assert s[k] == l[k - i];
    }
    if r != [] {
      assert r[0] == l[0];
    }
  }

  /** A string without white space at either end is its own TrimSpace. */
  lemma TrimSpaceOfTrimmed(s: string)
    requires s == [] || (!IsSpace(s[0]) && !IsSpace(s[|s| - 1]))
    ensures TrimSpace(s) == s
  {
  }

  /** Trailing white space does not change TrimSpace. */
  lemma {:induction false} TrimSpaceIgnoresTrailingSpace(s: string, t: string)
    requires forall k :: 0 <= k < |t| ==> IsSpace(t[k])
    ensures TrimSpace(s + t) == TrimSpace(s)
    decreases |t|
  {
    if t == [] {
      assert s + t == s;
    } else {
      var t' := t[..|t| - 1];
      assert s + t == (s + t') + [t[|t| - 1]];
      TrimLeftTrailingSpace(s + t', t[|t| - 1]);
      TrimSpaceIgnoresTrailingSpace(s, t');
    }
  }

  /** Appending one white-space character changes TrimSpace not at all. */
  lemma TrimLeftTrailingSpace(s: string, c: char)
    requires IsSpace(c)
    ensures TrimSpace(s + [c]) == TrimSpace(s)
    decreases |s|
  {
    if |s| > 0 && IsSpace(s[0]) {
      assert (s + [c])[1..] == s[1..] + [c];
      TrimLeftTrailingSpace(s[1..], c);
    } else if |s| == 0 {
    } else {
      var l := s + [c];
      assert TrimLeftWhere(l, IsSpace) == l;
      assert TrimLeftWhere(s, IsSpace) == s;
      assert l[..|l| - 1] == s;
    }
  }

  /** Go's `strings.Split(s, string(sep))`: the pieces between occurrences of
      `sep`; `n` separators give `n + 1` pieces, empty ones included. */
  function Split(s: string, sep: char): (parts: seq<string>)
    ensures |parts| >= 1
    ensures forall i :: 0 <= i < |parts| ==> sep !in parts[i]
    ensures JoinWith(parts, [sep]) == s
    decreases |s|
  {
    if |s| == 0 then [""]
    else if s[0] == sep then
      var rest := Split(s[1..], sep);
      assert [sep] + s[1..] == s;
      [""] + rest
    else
      var rest := Split(s[1..], sep);
      JoinWithConsHead(s[0], rest, [sep]);
      assert [s[0]] + s[1..] == s;
      [[s[0]] + rest[0]] + rest[1..]
  }

  /** Go's `strings.Join(parts, sep)`. */
  function JoinWith(parts: seq<string>, sep: string): string
    decreases |parts|
  {
    if |parts| == 0 then ""
    else if |parts| == 1 then parts[0]
    else parts[0] + sep + JoinWith(parts[1..], sep)
  }

  lemma JoinWithConsHead(c: char, parts: seq<string>, sep: string)
    requires |parts| >= 1
    ensures JoinWith([[c] + parts[0]] + parts[1..], sep) == [c] + JoinWith(parts, sep)
  {
    var ps := [[c] + parts[0]] + parts[1..];
    if |parts| > 1 {
      assert ps[1..] == parts[1..];
    }
  }

  /** Every piece of a join, with the separator in front, occurs in the
      joined text once the separator is also put in front of it. */
  lemma {:induction false} JoinListsEach(parts: seq<string>, sep: string, i: nat)
    requires i < |parts|
    ensures Contains(sep + JoinWith(parts, sep), sep + parts[i])
    decreases |parts|
  {
    if |parts| == 1 {
      ContainsMiddle("", sep + parts[0], "");
      assert "" + (sep + parts[0]) + "" == sep + JoinWith(parts, sep);
    } else {
      var head, tail := sep + parts[0], sep + JoinWith(parts[1..], sep);
      assert JoinWith(parts, sep) == parts[0] + sep + JoinWith(parts[1..], sep);
      assert sep + JoinWith(parts, sep) == head + tail;
      if i == 0 {
        ContainsMiddle("", head, tail);
        assert "" + head + tail == head + tail;
      } else {
        JoinListsEach(parts[1..], sep, i - 1);
        assert parts[1..][i - 1] == parts[i];
        ContainsWithin(head, tail, "", sep + parts[i]);
        assert head + tail + "" == head + tail;
      }
    }
  }

  /** Every piece of a join occurs in the joined text. */
  lemma {:induction false} JoinContainsEach(parts: seq<string>, sep: string, i: nat)
    requires i < |parts|
    ensures Contains(JoinWith(parts, sep), parts[i])
    decreases |parts|
  {
    if |parts| == 1 {
      ContainsMiddle("", parts[0], "");
      assert "" + parts[0] + "" == parts[0];
    } else {
      var rest := JoinWith(parts[1..], sep);
      if i == 0 {
        ContainsMiddle("", parts[0], sep + rest);
        assert "" + parts[0] + (sep + rest) == JoinWith(parts, sep);
      } else {
        JoinContainsEach(parts[1..], sep, i - 1);
        ContainsWithin(parts[0] + sep, rest, "", parts[i]);
        assert parts[0] + sep + rest + "" == JoinWith(parts, sep);
      }
    }
  }

  /** A join splits at any inner boundary into the joins of the two halves. */
  lemma {:induction false} JoinWithSplitAt(parts: seq<string>, k: nat, sep: string)
    requires 1 <= k < |parts|
    ensures JoinWith(parts, sep) == JoinWith(parts[..k], sep) + sep + JoinWith(parts[k..], sep)
    decreases k
  {
    if k > 1 {
      JoinWithSplitAt(parts[1..], k - 1, sep);
      assert parts[1..][..k - 1] == parts[..k][1..];
      assert parts[1..][k - 1..] == parts[k..];
    }
  }

  /** A piece without the separator splits into itself. */
  lemma {:induction false} SplitNoSep(a: string, sep: char)
    requires sep !in a
    ensures Split(a, sep) == [a]
    decreases |a|
  {
    if |a| > 0 {
      assert sep !in a[1..];
      SplitNoSep(a[1..], sep);
      assert [a[0]] + a[1..] == a;
    }
  }

  /** Splitting distributes over a separator occurrence. */
  lemma {:induction false} SplitAppend(a: string, b: string, sep: char)
    ensures Split(a + [sep] + b, sep) == Split(a, sep) + Split(b, sep)
    decreases |a|
  {
    var s := a + [sep] + b;
    if |a| == 0 {
      assert s == [sep] + b;
      assert s[1..] == b;
    } else {
      assert s[0] == a[0];
      assert s[1..] == a[1..] + [sep] + b;
      SplitAppend(a[1..], b, sep);
    }
  }

  /** Splitting undoes joining, for separator-free pieces. */
  lemma {:induction false} SplitJoin(parts: seq<string>, sep: char)
    requires |parts| >= 1
    requires forall i :: 0 <= i < |parts| ==> sep !in parts[i]
    ensures Split(JoinWith(parts, [sep]), sep) == parts
    decreases |parts|
  {
    if |parts| == 1 {
      SplitNoSep(parts[0], sep);
    } else {
      SplitJoin(parts[1..], sep);
      SplitNoSep(parts[0], sep);
      SplitAppend(parts[0], JoinWith(parts[1..], [sep]), sep);
      assert parts == [parts[0]] + parts[1..];
    }
  }

  /** The text before the first `sep`, or all of `s` (the `before` part of
      Go's `strings.Cut`, and `strings.SplitN(s, sep, 2)[0]`). */
  function Before(s: string, sep: char): (r: string)
    ensures sep !in r
    ensures |r| <= |s| && r == s[..|r|]
    ensures |r| < |s| ==> s[|r|] == sep
  {
    if |s| == 0 || s[0] == sep then "" else [s[0]] + Before(s[1..], sep)
  }

  /** Cutting at the first separator finds the text placed before it. */
  lemma {:induction false} BeforeStopsAtFirst(a: string, b: string, sep: char)
    requires sep !in a
    ensures Before(a + [sep] + b, sep) == a
    decreases |a|
  {
    var s := a + [sep] + b;
    if a == [] {
      assert s[0] == sep;
    } else {
      assert s[0] == a[0] && a[0] != sep;
      assert s[1..] == a[1..] + [sep] + b;
      BeforeStopsAtFirst(a[1..], b, sep);
      assert [a[0]] + a[1..] == a;
    }
  }

  /** The first piece of Split is the text before the first separator. */
  lemma {:induction false} BeforeIsFirstPiece(s: string, sep: char)
    ensures Before(s, sep) == Split(s, sep)[0]
    decreases |s|
  {
    if |s| > 0 && s[0] != sep {
      BeforeIsFirstPiece(s[1..], sep);
    }
  }

  /** Three fields free of the separator, joined by it, split back. */
  lemma SplitThree(a: string, b: string, c: string, sep: char)
    requires sep !in a && sep !in b && sep !in c
    ensures Split(a + [sep] + b + [sep] + c, sep) == [a, b, c]
  {
    var bc := b + [sep] + c;
    assert a + [sep] + b + [sep] + c == a + [sep] + bc;
    SplitNoSep(a, sep);
    SplitNoSep(b, sep);
    SplitNoSep(c, sep);
    SplitAppend(b, c, sep);
    assert Split(bc, sep) == [b, c];
    SplitAppend(a, bc, sep);
    assert Split(a + [sep] + bc, sep) == [a] + [b, c];
  }

  /** Go's `strings.HasPrefix`. */
  predicate HasPrefix(s: string, prefix: string) {
    |prefix| <= |s| && s[..|prefix|] == prefix
  }

  lemma PrefixOfConcat(a: string, b: string)
    ensures HasPrefix(a + b, a)
  {
    assert (a + b)[..|a|] == a;
  }

  /** `sub` occurs in `s` starting at index `i`. */
  predicate OccursAt(s: string, sub: string, i: nat) {
    i + |sub| <= |s| && s[i..i + |sub|] == sub
  }

  /** Go's `strings.Contains`. */
  function Contains(s: string, sub: string): bool
    decreases |s|
  {
    if |sub| > |s| then false
    else if HasPrefix(s, sub) then true
    else Contains(s[1..], sub)
  }

  /** Contains is substring occurrence, in both directions. */
  lemma {:induction false} ContainsSpec(s: string, sub: string)
    ensures Contains(s, sub) <==> exists i: nat :: OccursAt(s, sub, i)
    decreases |s|
  {
    if |sub| > |s| {
    } else if HasPrefix(s, sub) {
      assert OccursAt(s, sub, 0);
    } else {
      ContainsSpec(s[1..], sub);
      if Contains(s[1..], sub) {
        var i: nat :| OccursAt(s[1..], sub, i);
        assert s[i + 1..i + 1 + |sub|] == s[1..][i..i + |sub|];
        assert OccursAt(s, sub, i + 1);
      }
      if exists i: nat :: OccursAt(s, sub, i) {
        var i: nat :| OccursAt(s, sub, i);
        assert i != 0;
        assert s[1..][i - 1..i - 1 + |sub|] == s[i..i + |sub|];
        assert OccursAt(s[1..], sub, i - 1);
      }
    }
  }

  /** A string contains anything placed inside it. */
  lemma ContainsMiddle(a: string, sub: string, b: string)
    ensures Contains(a + sub + b, sub)
  {
    var s := a + sub + b;
    assert s[|a|..|a| + |sub|] == sub;
    assert OccursAt(s, sub, |a|);
    ContainsSpec(s, sub);
  }

  /** Whatever a string contains, any extension of it contains too. */
  lemma ContainsWithin(a: string, s: string, b: string, sub: string)
    requires Contains(s, sub)
    ensures Contains(a + s + b, sub)
  {
    ContainsSpec(s, sub);
    var i: nat :| OccursAt(s, sub, i);
    var t := a + s + b;
    assert t[|a| + i..|a| + i + |sub|] == s[i..i + |sub|];
    assert OccursAt(t, sub, |a| + i);
    ContainsSpec(t, sub);
  }

  /** A join holds a character only if a part or the separator does. */
  lemma {:induction false} JoinCharFree(parts: seq<string>, sep: string, c: char)
    requires c !in sep && forall i :: 0 <= i < |parts| ==> c !in parts[i]
    ensures c !in JoinWith(parts, sep)
    decreases |parts|
  {
    if |parts| > 1 {
      JoinCharFree(parts[1..], sep, c);
    }
  }

  /** A join is at least as long as its parts together. */
  lemma {:induction false} JoinAtLeast(parts: seq<string>, sep: string, m: nat)
    requires forall i :: 0 <= i < |parts| ==> |parts[i]| >= m
    ensures |JoinWith(parts, sep)| >= |parts| * m
    decreases |parts|
  {
    if |parts| > 1 {
      JoinAtLeast(parts[1..], sep, m);
    }
  }

  /** Containment is transitive. */
  lemma ContainsTransitive(s: string, mid: string, sub: string)
    requires Contains(s, mid) && Contains(mid, sub)
    ensures Contains(s, sub)
  {
    ContainsSpec(s, mid);
    var i: nat :| OccursAt(s, mid, i);
    assert s == s[..i] + mid + s[i + |mid|..];
    ContainsWithin(s[..i], mid, s[i + |mid|..], sub);
  }

  /** Go's `strings.ReplaceAll(s, string(c), rep)`. */
  function ReplaceChar(s: string, c: char, rep: string): string
    decreases |s|
  {
    if |s| == 0 then ""
    else if s[0] == c then rep + ReplaceChar(s[1..], c, rep)
    else [s[0]] + ReplaceChar(s[1..], c, rep)
  }

  predicate IsAsciiDigit(c: char) {
    '0' <= c <= '9'
  }

  predicate AllAsciiDigits(s: string) {
    forall i :: 0 <= i < |s| ==> IsAsciiDigit(s[i])
  }
}
