/** What `intuneme status` prints (cmd/status.go), and what the
    extension's poll makes of it. The command prints one line per fact;
    the extension looks for a `Container:` line and a `Broker proxy:`
    line. As written, the command prints no broker line, so every poll
    reports the broker stopped; `StatusLines` adds the line the poll
    reads. */
module StatusReport {
  import opened Wrappers
  import opened Text
  import opened StatusMatch
  import opened ContainerManager
  import Nspawn

  /** The facts `intuneme status` reports. The broker flag is what the
      command would report if it printed the broker's state. */
  datatype Report = Report(initialized: bool, root: string, rootfs: string, machine: string,
                           containerRunning: bool, brokerRunning: bool)

  function Word(running: bool): string {
    if running then "running" else "stopped"
  }

  const RootLabel: string := "Root:    "
  const RootfsLabel: string := "Rootfs:  "
  const MachineLabel: string := "Machine: "

  /** Each line printed, with fmt.Println's newline after it. */
  function Printed(lines: seq<string>): string {
    JoinWith(lines, "\n") + "\n"
  }

  /** The lines the command prints, as written: no broker line. */
  function StatusLinesAsWritten(s: Report): (lines: seq<string>)
    ensures |lines| == if s.initialized then 4 else 2
  {
    if !s.initialized then ["Status: not initialized", "Run 'intuneme init' to get started."]
    else [RootLabel + s.root, RootfsLabel + s.rootfs, MachineLabel + s.machine, "Container: " + Word(s.containerRunning)]
  }

  /** The lines the command should print: the broker's state after the
      container's, in the form the extension reads. */
  function StatusLines(s: Report): (lines: seq<string>)
    ensures |lines| >= |StatusLinesAsWritten(s)| && lines[..|StatusLinesAsWritten(s)|] == StatusLinesAsWritten(s)
    ensures s.initialized ==> |lines| == 5 && lines[4] == "Broker proxy: " + Word(s.brokerRunning)
    ensures !s.initialized ==> lines == StatusLinesAsWritten(s)
  {
    StatusLinesAsWritten(s) + (if s.initialized then ["Broker proxy: " + Word(s.brokerRunning)] else [])
  }

  /** Paths and names print on one line each. */
  predicate OneLine(s: Report) {
    TerminatorFree(s.root) && TerminatorFree(s.rootfs) && TerminatorFree(s.machine)
  }

  // ---------------------------------------------------------------------
  // Helpers about lines

  lemma WordIsWord(running: bool)
    ensures Word(running) != [] && TerminatorFree(Word(running))
    ensures forall k :: 0 <= k < |Word(running)| ==> IsWordChar(Word(running)[k])
  {
  }

  lemma KeyLine(key: string, running: bool)
    requires TerminatorFree(key)
    ensures var line := key + " " + Word(running);
      TerminatorFree(line) && WordLine(line, key) && line[|key| + 1..] == Word(running)
  {
    var line := key + " " + Word(running);
    WordIsWord(running);
    assert line[..|key|] == key;
    assert forall k :: |key| < k < |line| ==> line[k] == Word(running)[k - |key| - 1];
  }

  lemma LabelledLine(head: string, value: string)
    requires TerminatorFree(head) && TerminatorFree(value)
    ensures TerminatorFree(head + value)
  {
    assert forall k :: |head| <= k < |head + value| ==> (head + value)[k] == value[k - |head|];
  }

  lemma OtherInitial(line: string, key: string)
    requires line != [] && key != [] && line[0] != key[0]
    ensures !HasPrefix(line, key)
  {
    if |key| <= |line| {
      assert line[..|key|][0] == line[0];
    }
  }

  lemma JsTrimKeeps(s: string)
    requires s != [] && !IsJsSpace(s[0]) && !IsJsSpace(s[|s| - 1])
    ensures JsTrim(s + "\n") == s
  {
    var t := s + "\n";
    var l := TrimLeftWhere(t, IsJsSpace);
    assert |l| == |t|;
    assert l == t;
    var r := TrimRightWhere(l, IsJsSpace);
    assert |r| != |t|;
    assert |r| == |s|;
    assert r == s;
  }

  /** The command's output, trimmed as the extension trims it, is its
      lines joined by newlines. */
  lemma TrimPrinted(lines: seq<string>)
    requires |lines| >= 2
    requires lines[0] != [] && !IsJsSpace(lines[0][0])
    requires var last := lines[|lines| - 1]; last != [] && !IsJsSpace(last[|last| - 1])
    ensures JsTrim(Printed(lines)) == JoinWith(lines, "\n")
  {
    var s := JoinWith(lines, "\n");
    var last := lines[|lines| - 1];
    assert s == lines[0] + "\n" + JoinWith(lines[1..], "\n");
    assert s[0] == lines[0][0];
    JoinWithSplitAt(lines, |lines| - 1, "\n");
    assert lines[|lines| - 1..] == [last];
    assert s[|s| - 1] == last[|last| - 1];
    JsTrimKeeps(s);
  }

  // ---------------------------------------------------------------------
  // What the poll reads

  lemma KeysOneLine()
    ensures TerminatorFree(ContainerKey) && TerminatorFree(BrokerKey)
    ensures ContainerKey[0] == 'C' && BrokerKey[0] == 'B'
  {
  }

  /** The initialized report's first four lines: none starts with the
      broker key, and only the last starts with the container key. */
  lemma HeadLines(s: Report)
    requires s.initialized && OneLine(s)
    ensures var lines := StatusLinesAsWritten(s);
      && (forall k :: 0 <= k < 4 ==> TerminatorFree(lines[k]) && !HasPrefix(lines[k], BrokerKey))
      && (forall k :: 0 <= k < 3 ==> !HasPrefix(lines[k], ContainerKey))
      && lines[3] == ContainerKey + " " + Word(s.containerRunning)
  {
    var lines := StatusLinesAsWritten(s);
    ContainerLine(s.containerRunning);
    LabelsOneLine();
    HeadLine(RootLabel, s.root);
    HeadLine(RootfsLabel, s.rootfs);
    HeadLine(MachineLabel, s.machine);
    KeysOneLine();
    KeyLine(ContainerKey, s.containerRunning);
    OtherInitial(lines[3], BrokerKey);
  }

  lemma LabelsOneLine()
    ensures TerminatorFree(RootLabel) && RootLabel[0] == 'R'
    ensures TerminatorFree(RootfsLabel) && RootfsLabel[0] == 'R'
    ensures TerminatorFree(MachineLabel) && MachineLabel[0] == 'M'
  {
    RootLabelOneLine();
    RootfsLabelOneLine();
    MachineLabelOneLine();
  }

  lemma RootLabelOneLine() ensures TerminatorFree(RootLabel) && RootLabel[0] == 'R' {}
  lemma RootfsLabelOneLine() ensures TerminatorFree(RootfsLabel) && RootfsLabel[0] == 'R' {}
  lemma MachineLabelOneLine() ensures TerminatorFree(MachineLabel) && MachineLabel[0] == 'M' {}

  /** A labelled line whose label starts with neither key's letter is one
      line and starts with neither key. */
  lemma HeadLine(head: string, value: string)
    requires TerminatorFree(head) && TerminatorFree(value)
    requires head != [] && head[0] != 'C' && head[0] != 'B'
    ensures TerminatorFree(head + value)
    ensures !HasPrefix(head + value, ContainerKey) && !HasPrefix(head + value, BrokerKey)
  {
    LabelledLine(head, value);
    KeysOneLine();
    OtherInitial(head + value, ContainerKey);
    OtherInitial(head + value, BrokerKey);
  }

  /** The word of the line at `i`, when it is the first to start with
      the key. */
  lemma {:induction false} FirstKeyLineAt(lines: seq<string>, key: string, i: nat, w: string)
    requires i < |lines| && lines[i] == key + " " + w
    requires forall k :: 0 <= k < i ==> !HasPrefix(lines[k], key)
    ensures FirstKeyLine(lines, key) == Some(w)
    decreases i
  {
    if i == 0 {
      PrefixOfConcat(key, " " + w);
      assert lines[0] == key + (" " + w);
      assert lines[0][|key| + 1..] == w;
    } else {
      assert lines[1..][i - 1] == lines[i];
      forall k | 0 <= k < i - 1
        ensures !HasPrefix(lines[1..][k], key)
      {
        assert lines[1..][k] == lines[k + 1];
      }
      FirstKeyLineAt(lines[1..], key, i - 1, w);
    }
  }

  /** The poll's search in printed lines: it finds the word of the one
      line at `i` that starts with the key, or nothing when `i` is past
      the last line. */
  lemma SearchPrinted(lines: seq<string>, key: string, i: nat, w: string)
    requires |lines| >= 2 && TerminatorFree(key)
    requires lines[0] != [] && !IsJsSpace(lines[0][0])
    requires var last := lines[|lines| - 1]; last != [] && !IsJsSpace(last[|last| - 1])
    requires forall k :: 0 <= k < |lines| ==> TerminatorFree(lines[k])
    requires forall k :: 0 <= k < |lines| && k != i ==> !HasPrefix(lines[k], key)
    requires i < |lines| ==> lines[i] == key + " " + w && WordLine(lines[i], key)
    ensures Search(JsTrim(Printed(lines)), key) == if i < |lines| then Some(w) else None
  {
    TrimPrinted(lines);
    SearchLines(lines, key);
    if i < |lines| {
      FirstKeyLineAt(lines, key, i, w);
    }
  }

  lemma ContainerLine(running: bool)
    ensures "Container: " + Word(running) == ContainerKey + " " + Word(running)
    ensures "Broker proxy: " + Word(running) == BrokerKey + " " + Word(running)
  {
  }

  /** The trimmed output of the command as written, when initialized. */
  lemma SearchAsWritten(s: Report)
    requires s.initialized && OneLine(s)
    ensures var out := JsTrim(Printed(StatusLinesAsWritten(s)));
      Search(out, ContainerKey) == Some(Word(s.containerRunning)) && Search(out, BrokerKey) == None
  {
    var lines := StatusLinesAsWritten(s);
    var w := Word(s.containerRunning);
    HeadLines(s);
    KeysOneLine();
    KeyLine(ContainerKey, s.containerRunning);
    WordIsWord(s.containerRunning);
    SearchPrinted(lines, ContainerKey, 3, w);
    SearchPrinted(lines, BrokerKey, 4, w);
  }

  /** The five lines of the corrected report meet the search's terms for
      both keys. */
  lemma CorrectedLines(s: Report)
    requires s.initialized && OneLine(s)
    ensures var lines := StatusLines(s);
      && |lines| == 5
      && lines[0] != [] && !IsJsSpace(lines[0][0])
      && lines[4] != [] && !IsJsSpace(lines[4][|lines[4]| - 1])
      && (forall k :: 0 <= k < 5 ==> TerminatorFree(lines[k]))
      && (forall k :: 0 <= k < 5 && k != 3 ==> !HasPrefix(lines[k], ContainerKey))
      && (forall k :: 0 <= k < 5 && k != 4 ==> !HasPrefix(lines[k], BrokerKey))
      && lines[3] == ContainerKey + " " + Word(s.containerRunning) && WordLine(lines[3], ContainerKey)
      && lines[4] == BrokerKey + " " + Word(s.brokerRunning) && WordLine(lines[4], BrokerKey)
  {
    var lines := StatusLines(s);
    HeadLines(s);
    KeysOneLine();
    KeyLine(ContainerKey, s.containerRunning);
    KeyLine(BrokerKey, s.brokerRunning);
    WordIsWord(s.brokerRunning);
    ContainerLine(s.brokerRunning);
    OtherInitial(lines[4], ContainerKey);
    assert forall k :: 0 <= k < 4 ==> lines[k] == StatusLinesAsWritten(s)[k];
  }

  /** The trimmed output of the corrected command, when initialized. */
  lemma SearchCorrected(s: Report)
    requires s.initialized && OneLine(s)
    ensures var out := JsTrim(Printed(StatusLines(s)));
      Search(out, ContainerKey) == Some(Word(s.containerRunning))
      && Search(out, BrokerKey) == Some(Word(s.brokerRunning))
  {
    var lines := StatusLines(s);
    CorrectedLines(s);
    KeysOneLine();
    SearchPrinted(lines, ContainerKey, 3, Word(s.containerRunning));
    SearchPrinted(lines, BrokerKey, 4, Word(s.brokerRunning));
  }

  /** The two lines printed for an uninitialized root hold no line
      terminator, open and close with printing characters, and start with
      neither key. */
  lemma UninitializedLines(s: Report)
    requires !s.initialized
    ensures var lines := StatusLines(s);
      && |lines| == 2
      && lines[0] != [] && !IsJsSpace(lines[0][0])
      && lines[1] != [] && !IsJsSpace(lines[1][|lines[1]| - 1])
      && (forall k :: 0 <= k < 2 ==> TerminatorFree(lines[k]))
      && (forall k :: 0 <= k < 2 ==> !HasPrefix(lines[k], ContainerKey) && !HasPrefix(lines[k], BrokerKey))
  {
    var lines := StatusLines(s);
    NotInitializedFree();
    KeysOneLine();
    OtherInitial(lines[0], ContainerKey);
    OtherInitial(lines[1], ContainerKey);
    OtherInitial(lines[0], BrokerKey);
    OtherInitial(lines[1], BrokerKey);
  }

  lemma NotInitializedFree()
    ensures TerminatorFree("Status: not initialized") && TerminatorFree("Run 'intuneme init' to get started.")
  {
  }

  /** The output of an uninitialized root holds neither key. */
  lemma SearchUninitialized(s: Report)
    requires !s.initialized
    ensures var out := JsTrim(Printed(StatusLines(s)));
      Search(out, ContainerKey) == None && Search(out, BrokerKey) == None
  {
    var lines := StatusLines(s);
    UninitializedLines(s);
    KeysOneLine();
    SearchPrinted(lines, ContainerKey, 2, "");
    SearchPrinted(lines, BrokerKey, 2, "");
  }

  /** As written, a poll never sees the broker running: whatever the
      broker's state, the extension's broker flag ends up false. */
  lemma PollAsWritten(m: Manager, s: Report)
    requires s.initialized ==> OneLine(s)
    ensures var r := PollStatus(m, true, Printed(StatusLinesAsWritten(s)));
      && !r.brokerRunning
      && r.containerRunning == (if s.initialized && !m.transitioning then s.containerRunning else m.containerRunning)
  {
    if s.initialized {
      SearchAsWritten(s);
    } else {
      SearchUninitialized(s);
    }
  }

  /** With the broker line printed, a poll reads both states back: the
      broker flag is the broker's state, and the container flag the
      container's unless a transition is under way. */
  lemma PollReadsReport(m: Manager, s: Report)
    requires s.initialized ==> OneLine(s)
    ensures var r := PollStatus(m, true, Printed(StatusLines(s)));
      && r.brokerRunning == (s.initialized && s.brokerRunning)
      && r.containerRunning == (if s.initialized && !m.transitioning then s.containerRunning else m.containerRunning)
      && r.transitioning == m.transitioning
  {
    if s.initialized {
      SearchCorrected(s);
    } else {
      SearchUninitialized(s);
    }
  }

  /** The `Container:` line follows the machine probe: `intuneme status`
      says running exactly when `machinectl show` succeeds, and a poll
      outside a transition takes the container flag from it. */
  lemma StatusShowsProbe(m: Manager, root: string, rootfs: string, machine: string, showOk: bool, broker: bool)
    requires TerminatorFree(root) && TerminatorFree(rootfs) && TerminatorFree(machine)
    ensures var s := Report(true, root, rootfs, machine, Nspawn.IsRunning(machine, showOk).1, broker);
      && StatusLinesAsWritten(s)[3] == ContainerKey + " " + (if showOk then "running" else "stopped")
      && PollStatus(m, true, Printed(StatusLinesAsWritten(s))).containerRunning
         == (if m.transitioning then m.containerRunning else showOk)
  {
    var s := Report(true, root, rootfs, machine, Nspawn.IsRunning(machine, showOk).1, broker);
    ContainerLine(s.containerRunning);
    PollAsWritten(m, s);
  }
}
