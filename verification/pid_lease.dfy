/** The broker proxy's PID file (internal/broker/proxy.go): writing the
    proxy's own PID, probing whether the recorded process is alive, and
    stopping it. Files are a map from path to contents; process lookup,
    signal delivery and liveness are oracles. */
module PidLease {
  import opened Wrappers
  import opened Text
  import opened Decimal

  type Store = map<string, string>

  datatype LeaseError = WriteFailed(path: string)

  /** `WritePIDFile`: records `self` in decimal at `path`, replacing any
      previous contents; a failed write leaves the store as it was. */
  function WritePidFile(fs: Store, path: string, self: Int64, writeOk: bool): (r: Result<Store, LeaseError>)
    ensures r.Ok? <==> writeOk
    ensures r.Ok? ==> path in r.value && Atoi(TrimSpace(r.value[path])) == Some(self)
    ensures r.Ok? ==> forall p :: p != path ==> (p in r.value <==> p in fs) && (p in fs ==> r.value[p] == fs[p])
  {
    if writeOk then
      TrimSpaceItoa(self);
      AtoiItoa(self);
      Ok(fs[path := Itoa(self)])
    else Err(WriteFailed(path))
  }

  /** The PID recorded in a file's contents: decimal text, surrounding
      white space ignored. */
  function ParsePid(data: string): Option<Int64> {
    Atoi(TrimSpace(data))
  }

  /** `IsRunningByPIDFile`: (0, false) when the file is missing or does not
      hold a number; otherwise the number, and whether the process can be
      found and accepts signal 0. A file that exists but cannot be read is
      not a separate case: the store holds only readable files, so it
      reads as missing, which is the same (0, false). */
  function IsRunningByPidFile(fs: Store, path: string, found: int -> bool, alive: int -> bool): (r: (int, bool))
    ensures (path !in fs || ParsePid(fs[path]).None?) ==> r == (0, false)
    ensures path in fs && ParsePid(fs[path]).Some? ==>
      r == (ParsePid(fs[path]).value, found(ParsePid(fs[path]).value) && alive(ParsePid(fs[path]).value))
  {
    if path !in fs then (0, false)
    else
      match ParsePid(fs[path])
      case None => (0, false)
      case Some(pid) =>
        if !found(pid) then (pid, false) else (pid, alive(pid))
  }

  /** After the proxy writes its PID file, a probe reports the proxy's own
      PID, alive exactly when the process is found and takes signal 0. */
  lemma WriteThenProbe(fs: Store, path: string, self: Int64, found: int -> bool, alive: int -> bool)
    ensures var w := WritePidFile(fs, path, self, true);
      w.Ok? && IsRunningByPidFile(w.value, path, found, alive) == (self, found(self) && alive(self))
  {
  }

  /** The outcome of a stop: the PID signalled (if the file named one and
      the process was found) and how many liveness probes were made. */
  datatype StopReport = StopReport(signalled: Option<int>, probes: nat)

  /** `n` is the number of probes a wait makes: every probe before the
      last found the process alive, and the last found it gone unless the
      limit of 50 was reached. */
  predicate ProbesMade(stillAlive: nat -> bool, n: nat) {
    1 <= n <= MaxProbes
    && (forall j :: 0 <= j < n - 1 ==> stillAlive(j))
    && (n < MaxProbes ==> !stillAlive(n - 1))
  }

  /** The probe count is determined by the probe answers. */
  lemma ProbesMadeUnique(stillAlive: nat -> bool, n: nat, m: nat)
    requires ProbesMade(stillAlive, n) && ProbesMade(stillAlive, m)
    ensures n == m
  {
  }

  const MaxProbes: nat := 50

  /** `StopByPIDFile`. A missing or unparsable file is left alone and
      nothing is signalled. Otherwise, when the process is found, it gets
      one SIGINT and is probed until a probe finds it gone, at most 50
      times (`stillAlive(k)` is the k-th probe's answer); then the file is
      removed whether or not the process exited, which takes effect when
      `removeOk`. No error is ever reported. */
  method StopByPidFile(fs: Store, path: string, found: int -> bool, stillAlive: nat -> bool, removeOk: bool)
    returns (fs': Store, report: StopReport)
    ensures (path !in fs || ParsePid(fs[path]).None?) ==> fs' == fs && report == StopReport(None, 0)
    ensures path in fs && ParsePid(fs[path]).Some? ==>
      var pid := ParsePid(fs[path]).value;
      fs' == (if removeOk then fs - {path} else fs)
      && report.signalled == (if found(pid) then Some(pid) else None)
      && (if found(pid) then ProbesMade(stillAlive, report.probes) else report.probes == 0)
  {
    if path !in fs {
      return fs, StopReport(None, 0);
    }
    var parsed := ParsePid(fs[path]);
    if parsed.None? {
      return fs, StopReport(None, 0);
    }
    var pid := parsed.value;
    var probes := 0;
    var signalled := None;
    if found(pid) {
      signalled := Some(pid);
      probes := ProbeUntilGone(stillAlive);
    }
    fs' := if removeOk then fs - {path} else fs;
    report := StopReport(signalled, probes);
  }

  /** The wait after SIGINT: probe with signal 0 until the process is gone,
      sleeping between probes, at most 50 times. */
  method ProbeUntilGone(stillAlive: nat -> bool) returns (probes: nat)
    ensures ProbesMade(stillAlive, probes)
  {
    probes := 0;
    var gone := false;
    while probes < MaxProbes && !gone
      invariant 0 <= probes <= MaxProbes
      invariant gone ==> probes > 0 && !stillAlive(probes - 1)
      invariant forall j :: 0 <= j < probes - 1 ==> stillAlive(j)
      invariant !gone && probes > 0 ==> stillAlive(probes - 1)
      decreases MaxProbes - probes
    {
      gone := !stillAlive(probes);
      probes := probes + 1;
    }
  }
}
