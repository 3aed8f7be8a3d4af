/** The startup sequence of the broker proxy (`Run` in
    internal/broker/proxy.go): reach the container's bus, reach the host
    session bus, export the forwarder and its introspection data, claim the
    broker name, then serve until cancelled. Each step's outcome is an
    oracle; the first failure ends the run, and every connection opened
    so far is closed on the way out, last opened first. */
module BrokerRun {
  import opened Wrappers
  import BrokerEndpoint
  import BrokerSession

  datatype Step =
    | DialContainer
    | AuthContainer
    | HelloContainer
    | ConnectHost
    | ExportForwarder
    | ExportIntrospectable
    | RequestName

  const StartupOrder: seq<Step> := [
    DialContainer, AuthContainer, HelloContainer, ConnectHost,
    ExportForwarder, ExportIntrospectable, RequestName ]

  /** The flags of the name request: fail rather than wait in the queue. */
  datatype NameFlag = AllowReplacement | ReplaceExisting | DoNotQueue

  const NameRequestFlags: set<NameFlag> := {DoNotQueue}

  /** The bus daemon's answer to a name request. */
  datatype NameReply = PrimaryOwner | InQueue | Exists | AlreadyOwner

  datatype Conn = ContainerConn | HostConn

  datatype RunError =
    | DialFailed(addr: string)
    | AuthFailed
    | HelloFailed
    | HostConnectFailed
    | ExportFailed
    | IntrospectExportFailed
    | RequestNameFailed(name: string)
    | NameAlreadyOwned(name: string)

  /** The steps attempted, the connections closed on return (in closing
      order), and the error returned; no error means the proxy served
      until its context was cancelled. */
  datatype RunOutcome = RunOutcome(attempted: seq<Step>, closed: seq<Conn>, err: Option<RunError>)

  /** The error a failing step reports. */
  function StepError(s: Step, addr: string): RunError {
    match s
    case DialContainer => DialFailed(addr)
    case AuthContainer => AuthFailed
    case HelloContainer => HelloFailed
    case ConnectHost => HostConnectFailed
    case ExportForwarder => ExportFailed
    case ExportIntrospectable => IntrospectExportFailed
    case RequestName => RequestNameFailed(BrokerEndpoint.BusName)
  }

  /** The connection a successful step opens, if any. */
  function Opens(s: Step): seq<Conn> {
    match s
    case DialContainer => [ContainerConn]
    case ConnectHost => [HostConn]
    case _ => []
  }

  /** The connections opened by a run of successful steps, in order. */
  function OpenedBy(steps: seq<Step>): seq<Conn>
    decreases |steps|
  {
    if |steps| == 0 then [] else OpenedBy(steps[..|steps| - 1]) + Opens(steps[|steps| - 1])
  }

  function Reverse<T>(s: seq<T>): (r: seq<T>)
    ensures |r| == |s| && forall k :: 0 <= k < |s| ==> r[k] == s[|s| - 1 - k]
    decreases |s|
  {
    if |s| == 0 then [] else [s[|s| - 1]] + Reverse(s[..|s| - 1])
  }

  /** The index of the step at which the run ends: the first step that
      fails or, for the name request, is answered with anything but primary
      ownership; |StartupOrder| when the run reaches serving. */
  function StopIndex(fails: Step -> bool, reply: NameReply, i: nat): (n: nat)
    requires i <= |StartupOrder|
    ensures i <= n <= |StartupOrder|
    ensures forall k :: i <= k < n ==> !Ends(StartupOrder[k], fails, reply)
    ensures n < |StartupOrder| ==> Ends(StartupOrder[n], fails, reply)
    decreases |StartupOrder| - i
  {
    if i == |StartupOrder| then i
    else if Ends(StartupOrder[i], fails, reply) then i
    else StopIndex(fails, reply, i + 1)
  }

  /** Whether step `s` ends the run. */
  predicate Ends(s: Step, fails: Step -> bool, reply: NameReply) {
    fails(s) || (s == RequestName && reply != PrimaryOwner)
  }

  /** `Run(ctx, root)`, cancelled after it starts serving: the steps up to
      the stopping one are attempted, the connections opened before it are
      closed in reverse, and the stopping step's error is returned. */
  function Run(root: string, fails: Step -> bool, reply: NameReply): RunOutcome {
    var addr := BrokerSession.ContainerBusAddress(root);
    var n := StopIndex(fails, reply, 0);
    if n == |StartupOrder| then
      RunOutcome(StartupOrder, Reverse(OpenedBy(StartupOrder)), None)
    else
      var s := StartupOrder[n];
      RunOutcome(StartupOrder[..n + 1], Reverse(OpenedBy(StartupOrder[..n])),
                 Some(if fails(s) then StepError(s, addr) else NameAlreadyOwned(BrokerEndpoint.BusName)))
  }

  /** The run stops at the first failing step and reports that step's
      error; no later step is attempted. */
  lemma RunStopsAtFirstFailure(root: string, fails: Step -> bool, reply: NameReply, j: nat)
    requires j < |StartupOrder| && fails(StartupOrder[j])
    requires forall k :: 0 <= k < j ==> !fails(StartupOrder[k])
    ensures Run(root, fails, reply).attempted == StartupOrder[..j + 1]
    ensures Run(root, fails, reply).err
      == Some(StepError(StartupOrder[j], BrokerSession.ContainerBusAddress(root)))
  {
    var n := StopIndex(fails, reply, 0);
    assert n <= j;
  }

  /** The run serves exactly when every step succeeds and the bus grants
      primary ownership of the name. */
  lemma RunServesIff(root: string, fails: Step -> bool, reply: NameReply)
    ensures Run(root, fails, reply).err.None?
      <==> (forall k :: 0 <= k < |StartupOrder| ==> !fails(StartupOrder[k])) && reply == PrimaryOwner
  {
    var n := StopIndex(fails, reply, 0);
    if n == |StartupOrder| {
      assert !Ends(StartupOrder[6], fails, reply);
    }
  }

  /** A name owned by someone else is never waited for: a successful
      request that does not make the proxy primary owner ends the run. */
  lemma NameTakenEndsRun(root: string, fails: Step -> bool, reply: NameReply)
    requires forall k :: 0 <= k < |StartupOrder| ==> !fails(StartupOrder[k])
    requires reply != PrimaryOwner
    ensures Run(root, fails, reply).err == Some(NameAlreadyOwned(BrokerEndpoint.BusName))
    ensures Run(root, fails, reply).attempted == StartupOrder
  {
    var n := StopIndex(fails, reply, 0);
    assert Ends(StartupOrder[6], fails, reply);
    assert n == 6;
  }

  lemma OpenedBySnoc(steps: seq<Step>, s: Step)
    ensures OpenedBy(steps + [s]) == OpenedBy(steps) + Opens(s)
  {
    assert (steps + [s])[..|steps|] == steps;
  }

  /** The connections opened before the step at index `n`: the container
      connection once the dial has succeeded, then the host connection. */
  lemma OpenedBefore(n: nat)
    requires n <= |StartupOrder|
    ensures OpenedBy(StartupOrder[..n])
      == (if n == 0 then [] else if n <= 3 then [ContainerConn] else [ContainerConn, HostConn])
  {
    if n > 0 {
      OpenedBefore(n - 1);
      assert StartupOrder[..n] == StartupOrder[..n - 1] + [StartupOrder[n - 1]];
      OpenedBySnoc(StartupOrder[..n - 1], StartupOrder[n - 1]);
    }
  }

  /** The connections closed on return: none when the dial fails, the
      container connection when a later step before the host connection
      fails, otherwise the host connection and then the container one. */
  lemma RunClosesWhatItOpened(root: string, fails: Step -> bool, reply: NameReply)
    ensures var r := Run(root, fails, reply);
      r.closed == (if |r.attempted| <= 1 then []
                   else if |r.attempted| <= 4 then [ContainerConn]
                   else [HostConn, ContainerConn])
  {
    var n := StopIndex(fails, reply, 0);
    if n == |StartupOrder| {
      OpenedBefore(n);
      assert StartupOrder[..n] == StartupOrder;
    } else {
      OpenedBefore(n);
    }
    assert Reverse([ContainerConn]) == [ContainerConn];
    assert Reverse([ContainerConn, HostConn]) == [HostConn, ContainerConn];
  }
}
