/** Getting the container image onto disk (internal/puller/puller.go):
    choosing a backend among the tools installed, and the command sequence
    each backend runs to pull the image and unpack it into the root
    filesystem. Which tools are on PATH, which commands succeed and the
    temporary directories are inputs; the commands are the output. */
module Puller {
  import opened Wrappers
  import opened Text
  import opened Paths
  import opened Exec
  import opened Steps

  datatype Backend = Podman | SkopeoUmoci | Docker

  function Name(b: Backend): string {
    match b
    case Podman => "podman"
    case SkopeoUmoci => "skopeo+umoci"
    case Docker => "docker"
  }

  /** The tools a backend needs on PATH. */
  function Needs(b: Backend): seq<string> {
    match b
    case Podman => ["podman"]
    case SkopeoUmoci => ["skopeo", "umoci"]
    case Docker => ["docker"]
  }

  predicate Available(b: Backend, onPath: string -> bool) {
    forall k :: 0 <= k < |Needs(b)| ==> onPath(Needs(b)[k])
  }

  const Preference: seq<Backend> := [Podman, SkopeoUmoci, Docker]

  const NoToolMessage: string := "no container tool found; install podman, skopeo+umoci, or docker"

  /** The position of the first backend in `prefs[i..]` whose tools are
      all on PATH, or |prefs|. */
  function FirstAvailable(prefs: seq<Backend>, onPath: string -> bool, i: nat): (n: nat)
    requires i <= |prefs|
    ensures i <= n <= |prefs|
    ensures forall k :: i <= k < n ==> !Available(prefs[k], onPath)
    ensures n < |prefs| ==> Available(prefs[n], onPath)
    decreases |prefs| - i
  {
    if i == |prefs| || Available(prefs[i], onPath) then i
    else FirstAvailable(prefs, onPath, i + 1)
  }

  /** `Detect`: podman, else skopeo with umoci, else docker. */
  function Detect(onPath: string -> bool): (r: Result<Backend, string>)
    ensures r.Ok? ==> Available(r.value, onPath)
    ensures r.Err? ==> r.error == NoToolMessage
  {
    if onPath("podman") then Ok(Podman)
    else if onPath("skopeo") && onPath("umoci") then Ok(SkopeoUmoci)
    else if onPath("docker") then Ok(Docker)
    else Err(NoToolMessage)
  }

  /** Detect picks the first backend in preference order whose tools are
      all installed, and fails exactly when there is none. */
  lemma DetectFollowsPreference(onPath: string -> bool)
    ensures var n := FirstAvailable(Preference, onPath, 0);
      Detect(onPath) == if n < |Preference| then Ok(Preference[n]) else Err(NoToolMessage)
  {
    assert Available(Podman, onPath) <==> onPath("podman") by {
      assert Needs(Podman)[0] == "podman";
    }
    assert Available(SkopeoUmoci, onPath) <==> onPath("skopeo") && onPath("umoci") by {
      assert Needs(SkopeoUmoci)[0] == "skopeo" && Needs(SkopeoUmoci)[1] == "umoci";
    }
    assert Available(Docker, onPath) <==> onPath("docker") by {
      assert Needs(Docker)[0] == "docker";
    }
    var n := FirstAvailable(Preference, onPath, 0);
    if n < |Preference| {
      assert n == 0 || !Available(Preference[0], onPath);
      assert n <= 1 || !Available(Preference[1], onPath);
    }
  }

  /** Skopeo is never chosen without umoci, even when nothing else is
      installed. */
  lemma SkopeoNeedsUmoci(onPath: string -> bool)
    requires !onPath("umoci")
    ensures Detect(onPath) != Ok(SkopeoUmoci)
  {
  }

  // ---------------------------------------------------------------------
  // Pulling and unpacking

  datatype PullError =
    | PullFailed(tool: string)
    | CreateFailed(tool: string)
    | ExportFailed(tool: string)
    | ExtractFailed
    | RemoveFailed(tool: string)
    | TempDirFailed(reason: string)
    | CopyFailed
    | UnpackFailed

  const ExtractContainer: string := "intuneme-extract"
  const TarName: string := "intuneme-rootfs.tar"

  /** `podman pull`, adding `--policy=missing` for a locally built image so
      that no registry is contacted. */
  function PodmanPullArgs(image: string): (r: seq<string>)
    ensures |r| == (if HasPrefix(image, "localhost/") then 3 else 2)
    ensures r[0] == "pull" && r[|r| - 1] == image
    ensures |r| == 3 ==> r[1] == "--policy=missing"
  {
    ["pull"] + (if HasPrefix(image, "localhost/") then ["--policy=missing"] else []) + [image]
  }

  /** The export route shared by podman and docker: remove a leftover
      container, pull, create the extract container, export it to a tar
      file, unpack the tar with sudo, remove the container. */
  function ExportCommands(tool: string, pullArgs: seq<string>, image: string, rootfs: string, tmpTar: string): (r: seq<Command>)
    ensures |r| == 6 && r[5] == r[0]
  {
    var rm := Run(tool, ["rm", ExtractContainer]);
    [ rm,
      Run(tool, pullArgs),
      Run(tool, ["create", "--name", ExtractContainer, image]),
      Run(tool, ["export", "-o", tmpTar, ExtractContainer]),
      RunAttached("sudo", ["tar", "-xf", tmpTar, "-C", rootfs]),
      rm ]
  }

  /** The first removal's failure is ignored; a failed export or unpack
      removes the container before returning. */
  function ExportSteps(tool: string, pullArgs: seq<string>, image: string, rootfs: string, tmpTar: string): (steps: seq<Step<PullError>>)
    ensures Commands(steps) == ExportCommands(tool, pullArgs, image, rootfs, tmpTar)
  {
    var c := ExportCommands(tool, pullArgs, image, rootfs, tmpTar);
    [ Step(c[0], false, [], RemoveFailed(tool)),
      Step(c[1], true, [], PullFailed(tool)),
      Step(c[2], true, [], CreateFailed(tool)),
      Step(c[3], true, [c[0]], ExportFailed(tool)),
      Step(c[4], true, [c[0]], ExtractFailed),
      Step(c[5], true, [], RemoveFailed(tool)) ]
  }

  /** What a pull did: the commands, the temporary file or directory
      removed on return, and the error. */
  datatype PullOutcome = PullOutcome(commands: seq<Command>, removed: Option<string>, err: Option<PullError>)

  /** The podman or docker route; `tempDir` is the system temporary
      directory. The tar file is removed on return once the export has
      succeeded. */
  function ExportPull(tool: string, pullArgs: seq<string>, image: string, rootfs: string, tempDir: string, ok: nat -> bool): (r: PullOutcome)
    ensures var steps := ExportSteps(tool, pullArgs, image, rootfs, Join(tempDir, TarName));
      var o := RunSteps(steps, ok, 0);
      r.commands == o.commands && r.err == o.err
      && (r.removed.Some? <==> FirstStop(steps, ok, 0) > 3)
      && (r.removed.Some? ==> r.removed.value == Join(tempDir, TarName))
  {
    var tmpTar := Join(tempDir, TarName);
    var steps := ExportSteps(tool, pullArgs, image, rootfs, tmpTar);
    var o := RunSteps(steps, ok, 0);
    PullOutcome(o.commands, if FirstStop(steps, ok, 0) > 3 then Some(tmpTar) else None, o.err)
  }

  /** The skopeo route: copy the image into an OCI layout in a fresh
      temporary directory, then unpack that same layout with umoci under
      sudo. */
  function SkopeoCommands(image: string, rootfs: string, tmp: string): seq<Command> {
    var layout := tmp + ":latest";
    [ Run("skopeo", ["copy", "docker://" + image, "oci:" + layout]),
      RunAttached("sudo", ["umoci", "raw", "unpack", "--image", layout, rootfs]) ]
  }

  /** Without a temporary directory nothing runs; with one, the directory
      is removed on return whatever happened. */
  function SkopeoPull(image: string, rootfs: string, mkTemp: Result<string, string>, ok: nat -> bool): (r: PullOutcome)
    ensures mkTemp.Err? ==> r == PullOutcome([], None, Some(TempDirFailed(mkTemp.error)))
    ensures mkTemp.Ok? ==> r.removed == Some(mkTemp.value)
  {
    match mkTemp
    case Err(reason) => PullOutcome([], None, Some(TempDirFailed(reason)))
    case Ok(tmp) =>
      var c := SkopeoCommands(image, rootfs, tmp);
      var o := RunSteps([Step(c[0], true, [], CopyFailed), Step(c[1], true, [], UnpackFailed)], ok, 0);
      PullOutcome(o.commands, Some(tmp), o.err)
  }

  /** The skopeo route command by command: a failed copy stops before the
      unpack, and the unpack reads the layout the copy wrote. */
  lemma SkopeoSequence(image: string, rootfs: string, tmp: string, ok: nat -> bool)
    ensures var c := SkopeoCommands(image, rootfs, tmp);
      var r := SkopeoPull(image, rootfs, Ok(tmp), ok);
      (r.commands, r.err) ==
        if !ok(0) then ([c[0]], Some(CopyFailed))
        else if !ok(1) then (c, Some(UnpackFailed))
        else (c, None)
    ensures var c := SkopeoCommands(image, rootfs, tmp);
      c[0].args[2] == "oci:" + c[1].args[4]
  {
    var c := SkopeoCommands(image, rootfs, tmp);
    var steps := [Step(c[0], true, [], CopyFailed), Step(c[1], true, [], UnpackFailed)];
    assert Commands(steps) == c;
    var r := SkopeoPull(image, rootfs, Ok(tmp), ok);
    assert r.commands == RunSteps(steps, ok, 0).commands && r.err == RunSteps(steps, ok, 0).err;
    if !ok(0) {
      RunStepsUpTo(steps, ok, 0);
      assert r.commands == c[..1] == [c[0]];
    } else if !ok(1) {
      RunStepsUpTo(steps, ok, 1);
      assert r.commands == c[..2] == c;
    } else {
      RunStepsUpTo(steps, ok, 2);
    }
    assert c[1].args[4] == tmp + ":latest";
    assert c[0].args[2] == "oci:" + (tmp + ":latest");
  }

  /** `PullAndExtract` of the chosen backend. */
  function PullAndExtract(b: Backend, image: string, rootfs: string, tempDir: string,
                          mkTemp: Result<string, string>, ok: nat -> bool): PullOutcome {
    match b
    case Podman => ExportPull("podman", PodmanPullArgs(image), image, rootfs, tempDir, ok)
    case Docker => ExportPull("docker", ["pull", image], image, rootfs, tempDir, ok)
    case SkopeoUmoci => SkopeoPull(image, rootfs, mkTemp, ok)
  }

  /** A failed pull or create ends the export route at once, with no
      cleanup; the leftover-container removal before it never matters. */
  lemma ExportStopsEarly(tool: string, pullArgs: seq<string>, image: string, rootfs: string, tempDir: string, ok: nat -> bool)
    ensures var all := ExportCommands(tool, pullArgs, image, rootfs, Join(tempDir, TarName));
      var r := ExportPull(tool, pullArgs, image, rootfs, tempDir, ok);
      (!ok(1) ==> r == PullOutcome(all[..2], None, Some(PullFailed(tool))))
      && (ok(1) && !ok(2) ==> r == PullOutcome(all[..3], None, Some(CreateFailed(tool))))
  {
    var steps := ExportSteps(tool, pullArgs, image, rootfs, Join(tempDir, TarName));
    if !ok(1) {
      RunStepsUpTo(steps, ok, 1);
    } else if !ok(2) {
      RunStepsUpTo(steps, ok, 2);
    }
  }

  /** A failed export or unpack removes the extract container before the
      error is returned; the tar file is removed once it was written. */
  lemma ExportCleansUp(tool: string, pullArgs: seq<string>, image: string, rootfs: string, tempDir: string, ok: nat -> bool)
    requires ok(1) && ok(2)
    ensures var tmpTar := Join(tempDir, TarName);
      var all := ExportCommands(tool, pullArgs, image, rootfs, tmpTar);
      var r := ExportPull(tool, pullArgs, image, rootfs, tempDir, ok);
      (!ok(3) ==> r == PullOutcome(all[..4] + [all[0]], None, Some(ExportFailed(tool))))
      && (ok(3) && !ok(4) ==> r == PullOutcome(all[..5] + [all[0]], Some(tmpTar), Some(ExtractFailed)))
  {
    var steps := ExportSteps(tool, pullArgs, image, rootfs, Join(tempDir, TarName));
    if !ok(3) {
      RunStepsUpTo(steps, ok, 3);
    } else if !ok(4) {
      RunStepsUpTo(steps, ok, 4);
    }
  }

  /** Once the unpack succeeds, all six commands have run and the result
      is the final removal's. */
  lemma ExportCompletes(tool: string, pullArgs: seq<string>, image: string, rootfs: string, tempDir: string, ok: nat -> bool)
    requires ok(1) && ok(2) && ok(3) && ok(4)
    ensures var tmpTar := Join(tempDir, TarName);
      ExportPull(tool, pullArgs, image, rootfs, tempDir, ok) ==
        PullOutcome(ExportCommands(tool, pullArgs, image, rootfs, tmpTar), Some(tmpTar),
                    if ok(5) then None else Some(RemoveFailed(tool)))
  {
    var steps := ExportSteps(tool, pullArgs, image, rootfs, Join(tempDir, TarName));
    if ok(5) {
      RunStepsUpTo(steps, ok, 6);
    } else {
      RunStepsUpTo(steps, ok, 5);
    }
  }

  /** The first command of every podman or docker pull clears a leftover
      container, and its outcome never matters. */
  lemma PreCleanIgnored(tool: string, pullArgs: seq<string>, image: string, rootfs: string, tempDir: string,
                        ok: nat -> bool, ok': nat -> bool)
    requires forall k :: k != 0 ==> ok(k) == ok'(k)
    ensures ExportPull(tool, pullArgs, image, rootfs, tempDir, ok) == ExportPull(tool, pullArgs, image, rootfs, tempDir, ok')
  {
    var steps := ExportSteps(tool, pullArgs, image, rootfs, Join(tempDir, TarName));
    FirstStopAgrees(steps, ok, ok', 0);
  }
}
