/** The GNOME Shell extension's view of the container
    (cmd/extension/containerManager.js): three flags, changed by
    machined's MachineNew and MachineRemoved signals, by start and stop
    requests and by polling `intuneme status`. Every change of a flag is
    announced once; setting a flag to the value it has announces nothing.
    The outcome and output of each command are inputs; the asynchronous
    parts are separate events. */
module ContainerManager {
  import opened Wrappers
  import opened Text
  import opened StatusMatch

  const MachineName: string := "intuneme"
  const Binary: string := "intuneme"

  /** The terminal emulators tried, in order. */
  const Terminals: seq<string> := ["ptyxis", "kgx", "gnome-terminal", "xterm"]

  datatype Property = ContainerRunning | BrokerRunning | Transitioning

  /** The flags, and the property notifications sent so far. */
  datatype Manager = Manager(containerRunning: bool, brokerRunning: bool, transitioning: bool,
                             notified: seq<Property>)

  const Initial: Manager := Manager(false, false, false, [])

  function Get(m: Manager, p: Property): bool {
    match p
    case ContainerRunning => m.containerRunning
    case BrokerRunning => m.brokerRunning
    case Transitioning => m.transitioning
  }

  /** The three setters: a property changes to `v`, and a notification is
      sent exactly when its value changed. */
  function Set(m: Manager, p: Property, v: bool): (r: Manager)
    ensures Get(r, p) == v
    ensures forall q :: q != p ==> Get(r, q) == Get(m, q)
    ensures r.notified == m.notified + (if Get(m, p) != v then [p] else [])
  {
    if Get(m, p) == v then m
    else
      var n := m.notified + [p];
      match p
      case ContainerRunning => m.(containerRunning := v, notified := n)
      case BrokerRunning => m.(brokerRunning := v, notified := n)
      case Transitioning => m.(transitioning := v, notified := n)
  }

  /** Setting a value twice is setting it once: the second call changes
      and announces nothing. */
  lemma SetIdempotent(m: Manager, p: Property, v: bool)
    ensures Set(Set(m, p, v), p, v) == Set(m, p, v)
  {
  }

  /** Two managers that agree on every flag are the same manager, given
      the same notifications. */
  lemma FlagsDetermine(a: Manager, b: Manager)
    requires forall p :: Get(a, p) == Get(b, p)
    requires a.notified == b.notified
    ensures a == b
  {
    assert Get(a, ContainerRunning) == Get(b, ContainerRunning);
    assert Get(a, BrokerRunning) == Get(b, BrokerRunning);
    assert Get(a, Transitioning) == Get(b, Transitioning);
  }

  // ---------------------------------------------------------------------
  // Signals

  /** MachineNew: the container is up and no longer starting. */
  function OnMachineNew(m: Manager, name: string): (r: Manager)
    ensures name != MachineName ==> r == m
    ensures name == MachineName ==>
      r.containerRunning && !r.transitioning && r.brokerRunning == m.brokerRunning
  {
    if name == MachineName then Set(Set(m, ContainerRunning, true), Transitioning, false) else m
  }

  /** MachineRemoved: the container, and the broker inside it, are down. */
  function OnMachineRemoved(m: Manager, name: string): (r: Manager)
    ensures name != MachineName ==> r == m
    ensures name == MachineName ==> !r.containerRunning && !r.brokerRunning && !r.transitioning
  {
    if name == MachineName then
      Set(Set(Set(m, ContainerRunning, false), BrokerRunning, false), Transitioning, false)
    else m
  }

  // ---------------------------------------------------------------------
  // Start and stop

  /** A request: the new state, and the command started, if any. */
  datatype Request = Request(manager: Manager, command: Option<seq<string>>)

  /** `start()`, up to the command: nothing while the container runs or a
      change is under way; otherwise the manager is transitioning and
      `pkexec intuneme start` runs. */
  function StartRequested(m: Manager): (r: Request)
    ensures m.containerRunning || m.transitioning ==> r == Request(m, None)
    ensures !(m.containerRunning || m.transitioning) ==>
      r.command == Some(["pkexec", Binary, "start"]) && r.manager.transitioning
      && !r.manager.containerRunning && r.manager.brokerRunning == m.brokerRunning
  {
    if m.containerRunning || m.transitioning then Request(m, None)
    else Request(Set(m, Transitioning, true), Some(["pkexec", Binary, "start"]))
  }

  /** `stop()`, up to the command: only a running container that is not
      already changing is stopped, with `intuneme stop`. */
  function StopRequested(m: Manager): (r: Request)
    ensures !m.containerRunning || m.transitioning ==> r == Request(m, None)
    ensures m.containerRunning && !m.transitioning ==>
      r.command == Some([Binary, "stop"]) && r.manager.transitioning
      && r.manager.containerRunning && r.manager.brokerRunning == m.brokerRunning
  {
    if !m.containerRunning || m.transitioning then Request(m, None)
    else Request(Set(m, Transitioning, true), Some([Binary, "stop"]))
  }

  /** The end of a start or stop command. Success changes nothing (the
      machined signal will); failure ends the transition and asks for a
      status poll. */
  datatype Finished = Finished(manager: Manager, pollNext: bool)

  function CommandFinished(m: Manager, ok: bool): (r: Finished)
    ensures ok ==> r == Finished(m, false)
    ensures !ok ==> (r.pollNext && !r.manager.transitioning
      && r.manager.containerRunning == m.containerRunning && r.manager.brokerRunning == m.brokerRunning)
  {
    if ok then Finished(m, false) else Finished(Set(m, Transitioning, false), true)
  }

  /** A start that succeeds ends, once machined announces the machine,
      with the container running and no transition under way. */
  lemma StartThenMachineNew(m: Manager)
    requires !m.containerRunning && !m.transitioning
    ensures var req := StartRequested(m);
      var done := CommandFinished(req.manager, true);
      var r := OnMachineNew(done.manager, MachineName);
      r.containerRunning && !r.transitioning
      && r.notified == m.notified + [Transitioning, ContainerRunning, Transitioning]
  {
  }

  /** A stop that succeeds ends, once machined announces the removal, with
      every flag down. */
  lemma StopThenMachineRemoved(m: Manager)
    requires m.containerRunning && !m.transitioning
    ensures var req := StopRequested(m);
      var done := CommandFinished(req.manager, true);
      var r := OnMachineRemoved(done.manager, MachineName);
      !r.containerRunning && !r.brokerRunning && !r.transitioning
  {
  }

  /** A start or stop whose command fails leaves the container flag as it
      was before the request. */
  lemma FailedRequestRestores(m: Manager, starting: bool)
    requires !m.transitioning
    ensures var req := if starting then StartRequested(m) else StopRequested(m);
      var done := CommandFinished(req.manager, false);
      req.command.Some? ==>
        done.manager.containerRunning == m.containerRunning && done.manager.brokerRunning == m.brokerRunning
        && done.manager.transitioning == m.transitioning && done.pollNext
  {
  }

  // ---------------------------------------------------------------------
  // Polling

  const ContainerKey: string := "Container:"
  const BrokerKey: string := "Broker proxy:"

  /** `_pollStatus` with the outcome and output of `intuneme status`. A
      failed command changes nothing. Otherwise the first `Container:`
      line sets the container flag, unless a transition is under way;
      the broker flag is set by the first `Broker proxy:` line, and
      cleared when there is none. */
  function PollStatus(m: Manager, ok: bool, stdout: string): (r: Manager)
    ensures !ok ==> r == m
    ensures ok ==> var out := JsTrim(stdout);
      && r.transitioning == m.transitioning
      && r.brokerRunning == (Search(out, BrokerKey) == Some("running"))
      && r.containerRunning == (if Search(out, ContainerKey).Some? && !m.transitioning
                                then Search(out, ContainerKey) == Some("running") else m.containerRunning)
  {
    if !ok then m else Apply(m, Search(JsTrim(stdout), ContainerKey), Search(JsTrim(stdout), BrokerKey))
  }

  /** The flags after a successful poll that found `container` and `broker`. */
  function Apply(m: Manager, container: Option<string>, broker: Option<string>): (r: Manager)
    ensures r.transitioning == m.transitioning
    ensures r.brokerRunning == (broker == Some("running"))
    ensures r.containerRunning == (if container.Some? && !m.transitioning
                                   then container == Some("running") else m.containerRunning)
  {
    var m1 := if container.Some? && !m.transitioning then Set(m, ContainerRunning, container.value == "running")
              else m;
    Set(m1, BrokerRunning, broker.Some? && broker.value == "running")
  }

  /** Polling twice on the same output is polling once. */
  lemma PollIdempotent(m: Manager, ok: bool, stdout: string)
    ensures var once := PollStatus(m, ok, stdout);
      PollStatus(once, ok, stdout) == once
  {
    var once := PollStatus(m, ok, stdout);
    var twice := PollStatus(once, ok, stdout);
    if ok {
      assert twice.notified == once.notified;
      FlagsDetermine(twice, once);
    }
  }

  // ---------------------------------------------------------------------
  // Terminal

  /** The first of `names[i..]` on PATH. */
  function FirstOnPath(names: seq<string>, onPath: string -> bool, i: nat): (n: nat)
    requires i <= |names|
    ensures i <= n <= |names|
    ensures forall k :: i <= k < n ==> !onPath(names[k])
    ensures n < |names| ==> onPath(names[n])
    decreases |names| - i
  {
    if i == |names| || onPath(names[i]) then i else FirstOnPath(names, onPath, i + 1)
  }

  /** `findTerminal`: $TERMINAL when it is set and on PATH, else the first
      known terminal on PATH. `terminalEnv` is "" when the variable is
      unset. */
  function FindTerminal(terminalEnv: string, onPath: string -> bool): (r: Option<string>)
    ensures r.Some? ==> onPath(r.value)
    ensures terminalEnv != "" && onPath(terminalEnv) ==> r == Some(terminalEnv)
    ensures r.None? <==> ((terminalEnv == "" || !onPath(terminalEnv))
                          && forall k :: 0 <= k < |Terminals| ==> !onPath(Terminals[k]))
    ensures r.Some? && r.value != terminalEnv ==>
      exists k :: 0 <= k < |Terminals| && r.value == Terminals[k] && forall j :: 0 <= j < k ==> !onPath(Terminals[j])
  {
    if terminalEnv != "" && onPath(terminalEnv) then Some(terminalEnv)
    else
      var n := FirstOnPath(Terminals, onPath, 0);
      if n < |Terminals| then Some(Terminals[n]) else None
  }

  /** `openShell`: the command line launched, if a terminal was found. */
  function OpenShell(terminalEnv: string, onPath: string -> bool): (r: Option<seq<string>>)
    ensures r.Some? <==> FindTerminal(terminalEnv, onPath).Some?
    ensures r.Some? ==> |r.value| == 4 && onPath(r.value[0]) && r.value[1..] == ["--", Binary, "shell"]
  {
    match FindTerminal(terminalEnv, onPath)
    case None => None
    case Some(t) => Some([t, "--", Binary, "shell"])
  }
}
