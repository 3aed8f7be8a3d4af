/** The quick-settings toggle (cmd/extension/quickToggle.js): a view of
    the container manager's flags, and a click that starts or stops the
    container. */
module QuickToggle {
  import opened Wrappers
  import opened ContainerManager

  const Ellipsis: char := '\U{2026}'

  /** What the toggle and its menu show. */
  datatype View = View(checked: bool, reactive: bool, subtitle: string,
                       containerLabel: string, brokerLabel: string, shellSensitive: bool)

  /** The word for the container's state. */
  function StateWord(running: bool, transitioning: bool, error: bool): string {
    if error then "Error"
    else if transitioning then (if running then "Stopping" + [Ellipsis] else "Starting" + [Ellipsis])
    else if running then "Running" else "Stopped"
  }

  /** Reads a state word back: whether the container runs and whether it
      is changing; nothing for "Error" or an unknown word. */
  function ReadStateWord(word: string): Option<(bool, bool)> {
    if word == "Running" then Some((true, false))
    else if word == "Stopped" then Some((false, false))
    else if word == "Stopping" + [Ellipsis] then Some((true, true))
    else if word == "Starting" + [Ellipsis] then Some((false, true))
    else None
  }

  /** `_sync`: the toggle is on while the container runs and clickable
      while no change is under way; the menu names the container's and
      the broker's state; the shell can be opened only in a running,
      settled container. `error` is the manager's `error` property. */
  function Sync(m: Manager, error: bool): (v: View)
    ensures v.checked == m.containerRunning && v.reactive == !m.transitioning
    ensures v.shellSensitive <==> m.containerRunning && !m.transitioning
    ensures error ==> v.subtitle == "Error"
    ensures v.containerLabel == "Container: " + v.subtitle
    ensures v.brokerLabel == "Broker Proxy: " + (if m.brokerRunning then "Running" else "Stopped")
  {
    var word := StateWord(m.containerRunning, m.transitioning, error);
    View(m.containerRunning, !m.transitioning, word, "Container: " + word,
         "Broker Proxy: " + (if m.brokerRunning then "Running" else "Stopped"),
         m.containerRunning && !m.transitioning)
  }

  /** The word shown reads back as the state it shows. */
  lemma StateWordReadsBack(running: bool, transitioning: bool)
    ensures ReadStateWord(StateWord(running, transitioning, false)) == Some((running, transitioning))
    ensures StateWord(running, transitioning, false) != "Error"
  {
    var w := StateWord(running, transitioning, false);
    assert w[0] != 'E';
    if transitioning {
      assert |w| == 9 && w[2] == (if running then 'o' else 'a');
    } else {
      assert |w| == 7 && w[0] == (if running then 'R' else 'S');
    }
  }

  /** The subtitle and the container label tell the state apart: an error,
      or the container's state and whether it is changing. */
  lemma SyncReadsBack(m: Manager, error: bool)
    ensures var v := Sync(m, error);
      && (error <==> v.subtitle == "Error")
      && (!error ==> ReadStateWord(v.subtitle) == Some((m.containerRunning, m.transitioning)))
  {
    StateWordReadsBack(m.containerRunning, m.transitioning);
  }

  /** Different states show different words. */
  lemma StateWordsDiffer(m1: Manager, m2: Manager)
    requires Sync(m1, false).subtitle == Sync(m2, false).subtitle
    ensures m1.containerRunning == m2.containerRunning && m1.transitioning == m2.transitioning
  {
    SyncReadsBack(m1, false);
    SyncReadsBack(m2, false);
  }

  /** The click handler: ignored during a change; otherwise a running
      container is stopped and a stopped one started. */
  function Click(m: Manager): (r: Request)
    ensures r.command.Some? <==> !m.transitioning
    ensures r.command.Some? ==> (r.manager.transitioning
      && r.manager.containerRunning == m.containerRunning && r.manager.brokerRunning == m.brokerRunning)
    ensures r.command.Some? ==> (r.command.value == [Binary, "stop"] <==> m.containerRunning)
    ensures r.command.None? ==> r.manager == m
  {
    if m.transitioning then Request(m, None)
    else if m.containerRunning then StopRequested(m)
    else StartRequested(m)
  }

  /** A click does something exactly when the toggle is clickable, and the
      view that follows shows the change under way, with the toggle
      unclickable and the shell item off. */
  lemma ClickShowsChange(m: Manager)
    ensures Click(m).command.Some? <==> Sync(m, false).reactive
    ensures !m.transitioning ==> var v := Sync(Click(m).manager, false);
      && !v.reactive && !v.shellSensitive && v.checked == m.containerRunning
      && v.subtitle == (if m.containerRunning then "Stopping" + [Ellipsis] else "Starting" + [Ellipsis])
  {
  }

  /** A click while clickable, followed by the machined signal that the
      command succeeded, leaves the toggle showing the opposite state,
      clickable again. */
  lemma ClickThenSignal(m: Manager)
    requires !m.transitioning
    ensures var req := Click(m);
      var after := if m.containerRunning then OnMachineRemoved(req.manager, MachineName)
                   else OnMachineNew(req.manager, MachineName);
      var v := Sync(after, false);
      v.checked == !m.containerRunning && v.reactive
      && v.subtitle == (if m.containerRunning then "Stopped" else "Running")
  {
  }
}
