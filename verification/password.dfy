/** The container user's password (cmd/init.go): the rules of the
    container's pam_pwquality configuration, checked all at once, and the
    two ways of obtaining the password, the first line of a file or a
    confirmed interactive entry. Character classification is a parameter
    standing for Go's Unicode tables; `Ascii` is an instance for the ASCII
    range. Reads from the file and the terminal are oracles. */
module Password {
  import opened Wrappers
  import opened Text

  /** Go's `unicode.IsDigit`, `IsUpper`, `IsLower`, `IsLetter` and the
      per-character mapping behind `strings.ToLower`. */
  datatype CharTables = CharTables(
    isDigit: char -> bool, isUpper: char -> bool, isLower: char -> bool,
    isLetter: char -> bool, toLower: char -> char)

  /** The tables restricted to ASCII, where every letter is upper or lower
      case. */
  const Ascii: CharTables := CharTables(
    c => '0' <= c <= '9',
    c => 'A' <= c <= 'Z',
    c => 'a' <= c <= 'z',
    c => 'A' <= c <= 'Z' || 'a' <= c <= 'z',
    c => if 'A' <= c <= 'Z' then (c as int + 32) as char else c)

  const MinLength: nat := 12

  /** The class a character counts for: the first of digit, upper case,
      lower case and "neither letter nor digit" that it belongs to. */
  datatype CharClass = Digit | Upper | Lower | Special | Unclassed

  function Classify(t: CharTables, c: char): (k: CharClass)
    ensures k == Digit <==> t.isDigit(c)
    ensures k == Upper <==> !t.isDigit(c) && t.isUpper(c)
    ensures k == Lower <==> !t.isDigit(c) && !t.isUpper(c) && t.isLower(c)
    ensures k == Special <==> !t.isDigit(c) && !t.isUpper(c) && !t.isLower(c) && !t.isLetter(c)
  {
    if t.isDigit(c) then Digit
    else if t.isUpper(c) then Upper
    else if t.isLower(c) then Lower
    else if !t.isLetter(c) && !t.isDigit(c) then Special
    else Unclassed
  }

  /** Some character of `p` counts for class `k`. */
  predicate HasClass(t: CharTables, p: string, k: CharClass) {
    exists i :: 0 <= i < |p| && Classify(t, p[i]) == k
  }

  function LowerCase(t: CharTables, s: string): (r: string)
    ensures |r| == |s| && forall i :: 0 <= i < |s| ==> r[i] == t.toLower(s[i])
  {
    seq(|s|, i requires 0 <= i < |s| => t.toLower(s[i]))
  }

  /** One rule of the password policy, in the order the violations are
      reported. */
  datatype Rule = TooShort | NoDigit | NoUpper | NoLower | NoSpecial | HasUsername

  function Rank(r: Rule): nat {
    match r
    case TooShort => 0
    case NoDigit => 1
    case NoUpper => 2
    case NoLower => 3
    case NoSpecial => 4
    case HasUsername => 5
  }

  const TooShortMessage: string := "must be at least 12 characters"
  const NoDigitMessage: string := "must contain at least one digit"
  const NoUpperMessage: string := "must contain at least one uppercase letter"
  const NoLowerMessage: string := "must contain at least one lowercase letter"
  const NoSpecialMessage: string := "must contain at least one special character"
  const HasUsernameMessage: string := "must not contain your username"

  function Message(r: Rule): string {
    match r
    case TooShort => TooShortMessage
    case NoDigit => NoDigitMessage
    case NoUpper => NoUpperMessage
    case NoLower => NoLowerMessage
    case NoSpecial => NoSpecialMessage
    case HasUsername => HasUsernameMessage
  }

  /** The password holds the username, ignoring case; never for an empty
      username. */
  predicate NamesUser(t: CharTables, username: string, password: string) {
    username != "" && Contains(LowerCase(t, password), LowerCase(t, username))
  }

  /** Whether `password` breaks `rule`. Length counts characters; the
      username check ignores case and is skipped for an empty username. */
  predicate Violated(t: CharTables, username: string, password: string, rule: Rule) {
    match rule
    case TooShort => |password| < MinLength
    case NoDigit => !HasClass(t, password, Digit)
    case NoUpper => !HasClass(t, password, Upper)
    case NoLower => !HasClass(t, password, Lower)
    case NoSpecial => !HasClass(t, password, Special)
    case HasUsername => NamesUser(t, username, password)
  }

  /** The password meets every rule. */
  predicate Acceptable(t: CharTables, username: string, password: string) {
    && |password| >= MinLength
    && HasClass(t, password, Digit) && HasClass(t, password, Upper)
    && HasClass(t, password, Lower) && HasClass(t, password, Special)
    && !NamesUser(t, username, password)
  }

  /** The classes seen in one pass over the password. */
  datatype Seen = Seen(digit: bool, upper: bool, lower: bool, special: bool)

  /** The classification loop: each character sets the flag of its class. */
  function Scan(t: CharTables, p: string): (f: Seen)
    ensures f.digit <==> HasClass(t, p, Digit)
    ensures f.upper <==> HasClass(t, p, Upper)
    ensures f.lower <==> HasClass(t, p, Lower)
    ensures f.special <==> HasClass(t, p, Special)
    decreases |p|
  {
    if |p| == 0 then Seen(false, false, false, false)
    else
      var init := p[..|p| - 1];
      var f := Scan(t, init);
      var k := Classify(t, p[|p| - 1]);
      HasClassSnoc(t, p, Digit);
      HasClassSnoc(t, p, Upper);
      HasClassSnoc(t, p, Lower);
      HasClassSnoc(t, p, Special);
      Seen(f.digit || k == Digit, f.upper || k == Upper, f.lower || k == Lower, f.special || k == Special)
  }

  lemma HasClassSnoc(t: CharTables, p: string, k: CharClass)
    requires |p| > 0
    ensures HasClass(t, p, k) <==> HasClass(t, p[..|p| - 1], k) || Classify(t, p[|p| - 1]) == k
  {
    var init := p[..|p| - 1];
    if HasClass(t, p, k) && Classify(t, p[|p| - 1]) != k {
      var i :| 0 <= i < |p| && Classify(t, p[i]) == k;
      assert init[i] == p[i];
    }
    if HasClass(t, init, k) {
      var i :| 0 <= i < |init| && Classify(t, init[i]) == k;
      assert p[i] == init[i];
    }
  }

  const AllRules: seq<Rule> := [TooShort, NoDigit, NoUpper, NoLower, NoSpecial, HasUsername]

  /** Whether `rule` is broken, judged from the flags of one scan. */
  predicate Fails(rule: Rule, f: Seen, t: CharTables, username: string, password: string) {
    match rule
    case TooShort => |password| < MinLength
    case NoDigit => !f.digit
    case NoUpper => !f.upper
    case NoLower => !f.lower
    case NoSpecial => !f.special
    case HasUsername => NamesUser(t, username, password)
  }

  /** Rules strictly in reporting order. */
  predicate InOrder(v: seq<Rule>) {
    forall i, j :: 0 <= i < j < |v| ==> Rank(v[i]) < Rank(v[j])
  }

  /** The checks in turn, each appending its rule when it fails. */
  function Collect(rules: seq<Rule>, f: Seen, t: CharTables, username: string, password: string): (v: seq<Rule>)
    requires InOrder(rules)
    ensures forall rule :: rule in v <==> rule in rules && Fails(rule, f, t, username, password)
    ensures InOrder(v)
    decreases |rules|
  {
    if |rules| == 0 then []
    else
      var rest := Collect(rules[1..], f, t, username, password);
      InOrderHead(rules);
      if Fails(rules[0], f, t, username, password) then [rules[0]] + rest else rest
  }

  /** Every rule is checked, in reporting order. */
  lemma AllRulesInOrder()
    ensures InOrder(AllRules)
    ensures forall rule :: rule in AllRules
  {
    forall rule ensures rule in AllRules {
      assert AllRules[Rank(rule)] == rule;
    }
  }

  lemma InOrderHead(rules: seq<Rule>)
    requires InOrder(rules) && |rules| > 0
    ensures forall x :: x in rules[1..] ==> Rank(rules[0]) < Rank(x)
  {
    forall x | x in rules[1..] ensures Rank(rules[0]) < Rank(x) {
      var k :| 0 <= k < |rules[1..]| && rules[1..][k] == x;
      assert rules[k + 1] == x;
    }
  }

  /** The violated rules, collected without stopping at the first, in the
      fixed order length, digit, upper, lower, special, username. */
  function Violations(t: CharTables, username: string, password: string): (v: seq<Rule>)
    ensures forall rule :: rule in v <==> Violated(t, username, password, rule)
    ensures InOrder(v)
  {
    AllRulesInOrder();
    Collect(AllRules, Scan(t, password), t, username, password)
  }

  const Header: string := "password requirements not met:"
  const Bullet: string := "\n  - "

  function Messages(v: seq<Rule>): (ms: seq<string>)
    ensures |ms| == |v| && forall i :: 0 <= i < |v| ==> ms[i] == Message(v[i])
  {
    seq(|v|, i requires 0 <= i < |v| => Message(v[i]))
  }

  /** The report line naming a broken rule. */
  function Item(rule: Rule): string {
    "  - " + Message(rule)
  }

  function Items(v: seq<Rule>): (r: seq<string>)
    ensures |r| == |v| && forall i :: 0 <= i < |v| ==> r[i] == Item(v[i])
  {
    seq(|v|, i requires 0 <= i < |v| => Item(v[i]))
  }

  /** The error for a list of violations: none for an empty list,
      otherwise a text whose lines are the header and then one bulleted
      line per violation, in the list's order. */
  function Report(v: seq<Rule>): (r: Option<string>)
    ensures r.None? <==> v == []
    ensures r.Some? ==> HasPrefix(r.value, Header + Bullet)
    ensures r.Some? ==> forall rule :: rule in v ==> Contains(r.value, Bullet + Message(rule))
    ensures r.Some? ==> Split(r.value, '\n') == [Header] + Items(v)
  {
    if v == [] then None
    else
      var ms := Messages(v);
      var msg := Header + (Bullet + JoinWith(ms, Bullet));
      assert msg[..|Header + Bullet|] == Header + Bullet;
      forall rule | rule in v
        ensures Contains(msg, Bullet + Message(rule))
      {
        var i :| 0 <= i < |v| && v[i] == rule;
        ReportNames(ms, i);
      }
      ReportLines(v);
      Some(msg)
  }

  /** The report text is the header and the items joined by newlines, and
      splits back into them. */
  lemma ReportLines(v: seq<Rule>)
    requires v != []
    ensures Split(Header + (Bullet + JoinWith(Messages(v), Bullet)), '\n') == [Header] + Items(v)
  {
    assert Bullet == ['\n'] + "  - ";
    assert '\n' !in Header;
    forall i | 0 <= i < |v| ensures '\n' !in Items(v)[i] {
      ItemOneLine(v[i]);
    }
    HeaderAndLines(Header, Messages(v), Items(v), "  - ", '\n');
  }

  /** A head, then each text on a line of its own behind a prefix, splits
      into the head and the prefixed texts. */
  lemma HeaderAndLines(h: string, ms: seq<string>, items: seq<string>, pre: string, sep: char)
    requires |ms| >= 1 && |items| == |ms|
    requires forall i :: 0 <= i < |ms| ==> items[i] == pre + ms[i]
    requires sep !in h && forall i :: 0 <= i < |items| ==> sep !in items[i]
    ensures Split(h + (([sep] + pre) + JoinWith(ms, [sep] + pre)), sep) == [h] + items
  {
    var lines := [h] + items;
    PrefixedJoin(ms, items, pre, [sep]);
    JoinHead(h, items, [sep]);
    SeparatorFree(h, items, sep);
    SplitJoin(lines, sep);
  }

  lemma JoinHead(h: string, items: seq<string>, sep: string)
    requires |items| >= 1
    ensures JoinWith([h] + items, sep) == h + (sep + JoinWith(items, sep))
  {
    assert ([h] + items)[1..] == items;
  }

  lemma SeparatorFree(h: string, items: seq<string>, sep: char)
    requires sep !in h && forall i :: 0 <= i < |items| ==> sep !in items[i]
    ensures forall i :: 0 <= i < |[h] + items| ==> sep !in ([h] + items)[i]
  {
    forall i | 0 <= i < |[h] + items| ensures sep !in ([h] + items)[i] {
      if i > 0 {
        assert ([h] + items)[i] == items[i - 1];
      }
    }
  }

  /** A separator and a prefix in front of each text is the separator in
      front of each prefixed text. */
  lemma {:induction false} PrefixedJoin(ms: seq<string>, items: seq<string>, pre: string, nl: string)
    requires |ms| >= 1 && |items| == |ms|
    requires forall i :: 0 <= i < |ms| ==> items[i] == pre + ms[i]
    ensures (nl + pre) + JoinWith(ms, nl + pre) == nl + JoinWith(items, nl)
    decreases |ms|
  {
    if |ms| > 1 {
      PrefixedJoin(ms[1..], items[1..], pre, nl);
      assert (nl + pre) + JoinWith(ms, nl + pre) == nl + (pre + ms[0]) + ((nl + pre) + JoinWith(ms[1..], nl + pre));
    }
  }

  lemma ItemOneLine(rule: Rule)
    ensures '\n' !in Item(rule) && Item(rule)[0] == ' '
  {
    MessageOneLine(rule);
    assert '\n' !in "  - ";
  }

  /** Each message fits on one line. */
  lemma MessageOneLine(rule: Rule)
    ensures '\n' !in Message(rule)
  {
    match rule
    case TooShort => TooShortOneLine();
    case NoDigit => NoDigitOneLine();
    case NoUpper => NoUpperOneLine();
    case NoLower => NoLowerOneLine();
    case NoSpecial => NoSpecialOneLine();
    case HasUsername => HasUsernameOneLine();
  }

  lemma TooShortOneLine() ensures '\n' !in TooShortMessage {}
  lemma NoDigitOneLine() ensures '\n' !in NoDigitMessage {}
  lemma NoUpperOneLine() ensures '\n' !in NoUpperMessage {}
  lemma NoLowerOneLine() ensures '\n' !in NoLowerMessage {}
  lemma NoSpecialOneLine() ensures '\n' !in NoSpecialMessage {}
  lemma HasUsernameOneLine() ensures '\n' !in HasUsernameMessage {}

  /** Different rules have different report lines. */
  lemma ItemInjective(a: Rule, b: Rule)
    requires Item(a) == Item(b)
    ensures a == b
  {
    var m := Message(a);
    assert m == Item(a)[4..] && Message(b) == Item(b)[4..];
    assert |m| == |Message(b)|;
    if |m| == 30 {
      assert m[5] == Message(b)[5];
    }
    if |m| == 42 {
      assert m[26] == Message(b)[26];
    }
  }

  /** The rejection reads back as the header followed by one line per
      broken rule, in reporting order: a rule's line is there exactly when
      the rule is broken. */
  lemma ReportListsExactlyViolations(t: CharTables, username: string, password: string)
    ensures var r := ValidatePassword(t, username, password);
      r.Some? ==> var lines := Split(r.value, '\n');
        && lines == [Header] + Items(Violations(t, username, password))
        && forall rule :: Item(rule) in lines <==> Violated(t, username, password, rule)
  {
    var r := ValidatePassword(t, username, password);
    if r.Some? {
      LinesNameExactly(Violations(t, username, password), Split(r.value, '\n'));
    }
  }

  /** The header followed by the items of `v` holds a rule's line exactly
      when the rule is in `v`. */
  lemma LinesNameExactly(v: seq<Rule>, lines: seq<string>)
    requires lines == [Header] + Items(v)
    ensures forall rule :: Item(rule) in lines <==> rule in v
  {
    forall rule ensures Item(rule) != Header {
      HeaderIsNoItem(rule);
    }
    forall a, b | Item(a) == Item(b) ensures a == b {
      ItemInjective(a, b);
    }
    ImageExactly(v, lines, Header, Item);
  }

  /** Below a head that `f` never yields, the lines `f` gives the elements
      of `v` hold `f(x)` exactly when `x` is in `v`, when `f` is
      injective. */
  lemma ImageExactly<T>(v: seq<T>, lines: seq<string>, h: string, f: T -> string)
    requires |lines| == |v| + 1 && lines[0] == h
    requires forall i :: 0 <= i < |v| ==> lines[i + 1] == f(v[i])
    requires forall x :: f(x) != h
    requires forall x, y :: f(x) == f(y) ==> x == y
    ensures forall x :: f(x) in lines <==> x in v
  {
    forall x ensures f(x) in lines <==> x in v {
      if x in v {
        var i :| 0 <= i < |v| && v[i] == x;
        assert lines[i + 1] == f(x);
      }
      if f(x) in lines {
        var i :| 0 <= i < |lines| && lines[i] == f(x);
        assert i > 0;
        assert f(v[i - 1]) == f(x);
      }
    }
  }

  lemma HeaderIsNoItem(rule: Rule)
    ensures Item(rule) != Header
  {
    ItemOneLine(rule);
    assert Header[0] == 'p';
  }

  /** `validatePassword`: no error for an acceptable password; otherwise
      one error listing every violated rule as a bulleted line. */
  function ValidatePassword(t: CharTables, username: string, password: string): (r: Option<string>)
    ensures r.None? <==> Acceptable(t, username, password)
    ensures r.Some? ==> HasPrefix(r.value, Header + Bullet)
    ensures r.Some? ==> forall rule :: Violated(t, username, password, rule) ==> Contains(r.value, Bullet + Message(rule))
    ensures r.Some? ==> Split(r.value, '\n') == [Header] + Items(Violations(t, username, password))
  {
    var v := Violations(t, username, password);
    NoViolationIffAcceptable(t, username, password);
    Report(v)
  }

  /** A password is acceptable exactly when no rule is violated. */
  lemma NoViolationIffAcceptable(t: CharTables, username: string, password: string)
    ensures Violations(t, username, password) == [] <==> Acceptable(t, username, password)
  {
    var v := Violations(t, username, password);
    if v != [] {
      assert Violated(t, username, password, v[0]);
      ViolatedNotAcceptable(t, username, password, v[0]);
    }
    if !Acceptable(t, username, password) {
      var rule := FirstBroken(t, username, password);
      assert rule in v;
    }
  }

  /** A broken rule makes the password unacceptable. */
  lemma ViolatedNotAcceptable(t: CharTables, username: string, password: string, rule: Rule)
    requires Violated(t, username, password, rule)
    ensures !Acceptable(t, username, password)
  {
  }

  /** A rule an unacceptable password breaks. */
  lemma FirstBroken(t: CharTables, username: string, password: string) returns (rule: Rule)
    requires !Acceptable(t, username, password)
    ensures Violated(t, username, password, rule)
  {
    if |password| < MinLength { rule := TooShort; }
    else if !HasClass(t, password, Digit) { rule := NoDigit; }
    else if !HasClass(t, password, Upper) { rule := NoUpper; }
    else if !HasClass(t, password, Lower) { rule := NoLower; }
    else if !HasClass(t, password, Special) { rule := NoSpecial; }
    else { rule := HasUsername; }
  }

  /** The report names the message at index `i` on a line of its own. */
  lemma ReportNames(ms: seq<string>, i: nat)
    requires i < |ms|
    ensures Contains(Header + (Bullet + JoinWith(ms, Bullet)), Bullet + ms[i])
  {
    JoinListsEach(ms, Bullet, i);
    ContainsWithin(Header, Bullet + JoinWith(ms, Bullet), "", Bullet + ms[i]);
    assert Header + (Bullet + JoinWith(ms, Bullet)) + "" == Header + (Bullet + JoinWith(ms, Bullet));
  }

  /** A password breaking several rules is rejected with all of them
      reported, each in its fixed place: the report never stops at the
      first failure. */
  lemma EveryViolationReported(t: CharTables, username: string, password: string, a: Rule, b: Rule)
    requires Violated(t, username, password, a) && Violated(t, username, password, b)
    requires Rank(a) < Rank(b)
    ensures var v := Violations(t, username, password);
      exists i, j :: 0 <= i < j < |v| && v[i] == a && v[j] == b
  {
    InOrderPlaces(Violations(t, username, password), a, b);
  }

  lemma InOrderPlaces(v: seq<Rule>, a: Rule, b: Rule)
    requires InOrder(v) && a in v && b in v && Rank(a) < Rank(b)
    ensures exists i, j :: 0 <= i < j < |v| && v[i] == a && v[j] == b
  {
    var i :| 0 <= i < |v| && v[i] == a;
    var j :| 0 <= j < |v| && v[j] == b;
    assert i < j;
  }

  /** A letter that is neither upper nor lower case, and not a digit,
      counts for no class at all: it satisfies neither the case rules nor
      the special-character rule. */
  lemma CaselessLetterCountsForNothing(t: CharTables, c: char)
    requires t.isLetter(c) && !t.isDigit(c) && !t.isUpper(c) && !t.isLower(c)
    ensures Classify(t, c) == Unclassed
  {
  }

  /** Under the ASCII tables every character counts for some class:
      whatever is not an ASCII letter or digit is special. */
  lemma AsciiClassifiesEverything(c: char)
    ensures Classify(Ascii, c) != Unclassed
  {
  }

  /** The username check ignores case: usernames differing only in case
      are rejected for the same passwords. */
  lemma UsernameCheckIgnoresCase(t: CharTables, password: string, u: string, u': string)
    requires u != "" && u' != "" && LowerCase(t, u) == LowerCase(t, u')
    ensures Violated(t, u, password, HasUsername) <==> Violated(t, u', password, HasUsername)
  {
  }

  // ---------------------------------------------------------------------
  // readPassword

  datatype PasswordError =
    | ReadFileFailed(reason: string)
    | ReadTerminalFailed(reason: string)
    | Rejected(message: string)
    | NoMatchAfterRounds

  /** The password a file holds: its first line once trailing carriage
      returns and newlines are dropped, without surrounding white space. */
  function FirstLinePassword(data: string): string {
    TrimSpace(Before(TrimRightCRLF(data), '\n'))
  }

  /** Only the first line counts: whatever follows its newline is ignored,
      and the line loses its surrounding white space. */
  lemma FirstLineOnly(line: string, rest: string)
    requires '\n' !in line
    ensures FirstLinePassword(line + "\n" + rest) == TrimSpace(line)
  {
    var data := line + "\n" + rest;
    var cut := TrimRightCRLF(data);
    if |cut| > |line| {
      assert cut[|line|] == '\n';
      assert cut[..|line|] == line;
      BeforeOfLine(cut, line);
    } else {
      assert cut == line[..|cut|];
      assert Before(cut, '\n') == cut by {
        assert '\n' !in cut;
        BeforeNoSep(cut);
      }
      var tail := line[|cut|..];
      assert line == cut + tail;
      assert forall k :: 0 <= k < |tail| ==> IsSpace(tail[k]) by {
        forall k | 0 <= k < |tail| ensures IsSpace(tail[k]) {
          assert tail[k] == data[|cut| + k];
        }
      }
      TrimSpaceIgnoresTrailingSpace(cut, tail);
    }
  }

  lemma BeforeNoSep(s: string)
    requires '\n' !in s
    ensures Before(s, '\n') == s
  {
  }

  lemma BeforeOfLine(s: string, line: string)
    requires '\n' !in line && |s| > |line| && s[..|line|] == line && s[|line|] == '\n'
    ensures Before(s, '\n') == line
  {
    var r := Before(s, '\n');
    assert forall k :: 0 <= k < |line| ==> s[k] == line[k] && s[k] != '\n';
    assert |r| == |line|;
  }

  /** A file without a newline holds the password on its only line. */
  lemma SingleLineFile(line: string)
    requires '\n' !in line
    ensures FirstLinePassword(line) == TrimSpace(line)
  {
    var cut := TrimRightCRLF(line);
    BeforeNoSep(cut);
    var tail := line[|cut|..];
    assert line == cut + tail;
    TrimSpaceIgnoresTrailingSpace(cut, tail);
  }

  /** The file branch of `readPassword`: a read failure or a password the
      rules reject is an error; otherwise the file's password. */
  function PasswordFromFile(t: CharTables, username: string, data: Result<string, string>): (r: Result<string, PasswordError>)
    ensures data.Err? ==> r == Err(ReadFileFailed(data.error))
    ensures data.Ok? ==>
      (r.Ok? <==> Acceptable(t, username, FirstLinePassword(data.value)))
      && (r.Ok? ==> r.value == FirstLinePassword(data.value))
      && (r.Err? ==> r.error == Rejected(ValidatePassword(t, username, FirstLinePassword(data.value)).value))
  {
    match data
    case Err(reason) => Err(ReadFileFailed(reason))
    case Ok(contents) =>
      var password := FirstLinePassword(contents);
      match ValidatePassword(t, username, password)
      case Some(msg) => Err(Rejected(msg))
      case None => Ok(password)
  }

  const MaxRounds: nat := 3

  /** Round `k` of the interactive prompt reads the entry at `2k` and its
      confirmation at `2k + 1`. */
  predicate RoundReadFails(entry: nat -> Result<string, string>, k: nat) {
    entry(2 * k).Err? || entry(2 * k + 1).Err?
  }

  predicate RoundMismatch(entry: nat -> Result<string, string>, k: nat) {
    entry(2 * k).Ok? && entry(2 * k + 1).Ok? && entry(2 * k).value != entry(2 * k + 1).value
  }

  /** The error of the first failing read of round `k`. */
  function RoundReadError(entry: nat -> Result<string, string>, k: nat): PasswordError
    requires RoundReadFails(entry, k)
  {
    if entry(2 * k).Err? then ReadTerminalFailed(entry(2 * k).error)
    else ReadTerminalFailed(entry(2 * k + 1).error)
  }

  /** The interactive branch of `readPassword`: up to three rounds of entry
      and confirmation; a mismatch starts the next round, a read failure
      ends the prompt, and the first matching pair is validated and its
      outcome returned without another round. `rounds` is how many rounds
      were begun. */
  method PromptPassword(t: CharTables, username: string, entry: nat -> Result<string, string>)
    returns (r: Result<string, PasswordError>, rounds: nat)
    ensures 1 <= rounds <= MaxRounds
    ensures forall k :: 0 <= k < rounds - 1 ==> RoundMismatch(entry, k)
    ensures var last := rounds - 1;
      if RoundReadFails(entry, last) then r == Err(RoundReadError(entry, last))
      else if RoundMismatch(entry, last) then rounds == MaxRounds && r == Err(NoMatchAfterRounds)
      else var p := entry(2 * last).value;
        (r.Ok? <==> Acceptable(t, username, p)) && (r.Ok? ==> r.value == p)
        && (r.Err? ==> r.error == Rejected(ValidatePassword(t, username, p).value))
  {
    rounds := 0;
    while rounds < MaxRounds
      invariant rounds <= MaxRounds
      invariant forall k :: 0 <= k < rounds ==> RoundMismatch(entry, k)
      decreases MaxRounds - rounds
    {
      var p1 := entry(2 * rounds);
      if p1.Err? {
        return Err(ReadTerminalFailed(p1.error)), rounds + 1;
      }
      var p2 := entry(2 * rounds + 1);
      if p2.Err? {
        return Err(ReadTerminalFailed(p2.error)), rounds + 1;
      }
      if p1.value != p2.value {
        rounds := rounds + 1;
        continue;
      }
      rounds := rounds + 1;
      match ValidatePassword(t, username, p1.value)
      case Some(msg) => return Err(Rejected(msg)), rounds;
      case None => return Ok(p1.value), rounds;
    }
    assert RoundMismatch(entry, rounds - 1);
    r := Err(NoMatchAfterRounds);
  }

  /** `readPassword`: the file's first line when a password file is named,
      otherwise the interactive prompt, with its rounds (none for a
      file). */
  method ReadPassword(t: CharTables, username: string, passwordFile: string,
                      fileData: Result<string, string>, entry: nat -> Result<string, string>)
    returns (r: Result<string, PasswordError>, rounds: nat)
    ensures passwordFile != "" ==> r == PasswordFromFile(t, username, fileData) && rounds == 0
    ensures r.Ok? ==> Acceptable(t, username, r.value)
    ensures passwordFile == "" ==> 1 <= rounds <= MaxRounds
    ensures passwordFile == "" ==> forall k :: 0 <= k < rounds - 1 ==> RoundMismatch(entry, k)
    ensures passwordFile == "" ==> var last := rounds - 1;
      if RoundReadFails(entry, last) then r == Err(RoundReadError(entry, last))
      else if RoundMismatch(entry, last) then rounds == MaxRounds && r == Err(NoMatchAfterRounds)
      else var p := entry(2 * last).value;
        (r.Ok? <==> Acceptable(t, username, p)) && (r.Ok? ==> r.value == p)
        && (r.Err? ==> r.error == Rejected(ValidatePassword(t, username, p).value))
  {
    if passwordFile != "" {
      r := PasswordFromFile(t, username, fileData);
      rounds := 0;
    } else {
      r, rounds := PromptPassword(t, username, entry);
    }
  }
}
