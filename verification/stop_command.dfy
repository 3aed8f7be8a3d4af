/** The machine steps of `intuneme stop` (cmd/stop.go), which the
    extension runs to stop the container: ask machinectl whether the
    machine is registered, and power it off only when it is. */
module StopCommand {
  import opened Wrappers
  import opened Exec
  import opened Nspawn
  import opened ContainerManager

  /** The commands run and the error returned, given whether
      `machinectl show` succeeds and what `machinectl poweroff` gives. A
      machine that is not registered is already stopped: nothing is
      powered off and the command succeeds. */
  function StopMachine(machine: string, showOk: bool, poweroff: Result<string, string>)
    : (r: (seq<Command>, Option<NspawnError>))
    ensures |r.0| >= 1 && r.0[0] == Run("machinectl", ["show", machine])
    ensures Run("machinectl", ["poweroff", machine]) in r.0 <==> showOk
    ensures r.1.None? <==> !showOk || poweroff.Ok?
    ensures r.1.Some? ==> r.1.value.output == poweroff.error
  {
    var (show, running) := IsRunning(machine, showOk);
    if !running then ([show], None)
    else
      var (off, err) := Stop(machine, poweroff);
      ([show, off], err)
  }

  /** Stopping a stopped machine is harmless: it runs only the probe and
      succeeds, whatever poweroff would have done. */
  lemma StopIsIdempotent(machine: string, poweroff: Result<string, string>)
    ensures StopMachine(machine, false, poweroff) == ([Run("machinectl", ["show", machine])], None)
  {
  }

  /** The extension's stop, carried through: the request runs
      `intuneme stop`; a success leaves the transition open until machined
      reports the removal, and a poweroff failure ends the transition with
      the container still shown running and asks for a poll. */
  lemma ExtensionStopOutcome(m: Manager, showOk: bool, poweroff: Result<string, string>)
    requires m.containerRunning && !m.transitioning
    ensures var req := StopRequested(m);
      var out := StopMachine(MachineName, showOk, poweroff);
      var done := CommandFinished(req.manager, out.1.None?);
      && req.command == Some([Binary, "stop"])
      && (out.1.None? ==> done.manager.transitioning && done.manager.containerRunning && !done.pollNext)
      && (out.1.Some? ==> showOk && done.manager.containerRunning && !done.manager.transitioning && done.pollNext)
  {
  }
}
