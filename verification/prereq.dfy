/** Host prerequisites (internal/prereq/prereq.go): every binary the
    container needs must be on PATH, and each missing one is reported with
    the package that provides it. Which names are on PATH is an input. */
module Prereq {
  import opened Text

  datatype Requirement = Requirement(binary: string, pkgHint: string)

  const Requirements: seq<Requirement> := [
    Requirement("systemd-nspawn", "systemd-container"),
    Requirement("machinectl", "systemd-container")
  ]

  /** `<binary> not found — install the "<hint>" package`. */
  function Message(req: Requirement): (m: string)
    ensures HasPrefix(m, req.binary + " not found")
    ensures Contains(m, "\"" + req.pkgHint + "\"")
  {
    var head := req.binary + " not found";
    var quoted := "\"" + req.pkgHint + "\"";
    PrefixOfConcat(head, " — install the " + quoted + " package");
    ContainsMiddle(head + " — install the ", quoted, " package");
    head + " — install the " + quoted + " package"
  }

  /** The errors for `reqs`, in order: one per binary not on PATH. */
  function CheckAll(reqs: seq<Requirement>, onPath: string -> bool): (errs: seq<string>)
    ensures |errs| <= |reqs|
    ensures errs == [] <==> forall k :: 0 <= k < |reqs| ==> onPath(reqs[k].binary)
    ensures forall k :: 0 <= k < |reqs| && !onPath(reqs[k].binary) ==> Message(reqs[k]) in errs
    ensures forall e :: e in errs ==> exists k :: 0 <= k < |reqs| && !onPath(reqs[k].binary) && e == Message(reqs[k])
  {
    if reqs == [] then []
    else
      var rest := CheckAll(reqs[1..], onPath);
      assert forall k :: 1 <= k < |reqs| ==> reqs[k] == reqs[1..][k - 1];
      if onPath(reqs[0].binary) then rest
      else [Message(reqs[0])] + rest
  }

  /** `Check`. */
  function Check(onPath: string -> bool): seq<string> {
    CheckAll(Requirements, onPath)
  }

  /** Both binaries present: no errors; each one missing adds its own
      message, nspawn's first. */
  lemma CheckCases(onPath: string -> bool)
    ensures var nspawn := Message(Requirements[0]);
      var machinectl := Message(Requirements[1]);
      Check(onPath) ==
        (if onPath("systemd-nspawn") then [] else [nspawn])
        + (if onPath("machinectl") then [] else [machinectl])
  {
    var r := Requirements;
    assert r[1..][1..] == [];
    assert CheckAll(r[1..][1..], onPath) == [];
  }
}
