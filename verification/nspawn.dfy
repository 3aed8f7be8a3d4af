/** Booting and entering the container with systemd-nspawn and machinectl
    (internal/nspawn/nspawn.go). The host's environment, file system and
    glob results are inputs; commands are values. */
module Nspawn {
  import opened Wrappers
  import opened Text
  import opened Decimal
  import opened Paths
  import opened Exec

  /** A host path and where it appears inside the container. */
  datatype BindMount = BindMount(host: string, container: string)

  /** What the host looks like to the process: environment variables,
      which paths exist, what a glob pattern matches (in order) and the
      home directory lookup. */
  datatype Host = Host(env: string -> string, present: string -> bool,
                       glob: string -> seq<string>, home: Result<string, string>)

  function UserRuntimeDir(uid: int): string {
    "/run/user/" + Itoa(uid)
  }

  const XAuthorityPatterns: seq<string> := [".mutter-Xwaylandauth.*", "xauth_*"]

  /** $XAUTHORITY names an existing file. */
  predicate EnvXAuthorityUsable(h: Host) {
    h.env("XAUTHORITY") != "" && h.present(h.env("XAUTHORITY"))
  }

  function GlobIn(uid: int, h: Host, pattern: string): seq<string> {
    h.glob(Join(UserRuntimeDir(uid), pattern))
  }

  function ClassicXAuthority(home: string): string {
    Join(home, ".Xauthority")
  }

  /** `findXAuthority`: $XAUTHORITY when that file exists; else the first
      match of the first runtime-directory pattern that matches anything;
      else ~/.Xauthority when it exists; else "". */
  function FindXAuthority(uid: int, h: Host): (r: string)
    ensures EnvXAuthorityUsable(h) ==> r == h.env("XAUTHORITY")
    ensures (EnvXAuthorityUsable(h) && r == h.env("XAUTHORITY"))
      || (GlobIn(uid, h, XAuthorityPatterns[0]) != [] && r == GlobIn(uid, h, XAuthorityPatterns[0])[0])
      || (GlobIn(uid, h, XAuthorityPatterns[1]) != [] && r == GlobIn(uid, h, XAuthorityPatterns[1])[0])
      || (h.home.Ok? && r == ClassicXAuthority(h.home.value) && h.present(r))
      || r == ""
    ensures !EnvXAuthorityUsable(h) && GlobIn(uid, h, XAuthorityPatterns[0]) != [] ==>
      r == GlobIn(uid, h, XAuthorityPatterns[0])[0]
    ensures !EnvXAuthorityUsable(h) && GlobIn(uid, h, XAuthorityPatterns[1]) != [] ==>
      (GlobIn(uid, h, XAuthorityPatterns[0]) != [] && r == GlobIn(uid, h, XAuthorityPatterns[0])[0])
      || r == GlobIn(uid, h, XAuthorityPatterns[1])[0]
    ensures var noMatch := GlobIn(uid, h, XAuthorityPatterns[0]) == [] && GlobIn(uid, h, XAuthorityPatterns[1]) == [];
      !EnvXAuthorityUsable(h) && noMatch ==>
        r == (if h.home.Ok? && h.present(ClassicXAuthority(h.home.value)) then ClassicXAuthority(h.home.value) else "")
    ensures r == "" ==> !EnvXAuthorityUsable(h)
  {
    if EnvXAuthorityUsable(h) then h.env("XAUTHORITY")
    else
      var m0 := GlobIn(uid, h, XAuthorityPatterns[0]);
      var m1 := GlobIn(uid, h, XAuthorityPatterns[1]);
      if m0 != [] then m0[0]
      else if m1 != [] then m1[0]
      else if h.home.Ok? && h.present(ClassicXAuthority(h.home.value)) then ClassicXAuthority(h.home.value)
      else ""
  }

  /** The optional host sockets, in the order they are checked. */
  function SocketChecks(uid: int): seq<BindMount> {
    var rd := UserRuntimeDir(uid);
    [ BindMount(rd + "/wayland-0", "/run/host-wayland"),
      BindMount(rd + "/pipewire-0", "/run/host-pipewire"),
      BindMount(rd + "/pulse/native", "/run/host-pulse") ]
  }

  const XAuthorityTarget: string := "/run/host-xauthority"

  /** The checks whose host path exists, in order. */
  function PresentOf(checks: seq<BindMount>, present: string -> bool): (r: seq<BindMount>)
    ensures forall m :: m in r <==> m in checks && present(m.host)
    ensures |r| <= |checks|
  {
    if checks == [] then []
    else
      var rest := PresentOf(checks[1..], present);
      if present(checks[0].host) then [checks[0]] + rest else rest
  }

  /** `DetectHostSockets`: a mount for each optional socket that exists,
      then the X authority file when one is found. */
  function DetectHostSockets(uid: int, h: Host): (r: seq<BindMount>)
    ensures forall m :: m in SocketChecks(uid) ==> (m in r <==> h.present(m.host))
    ensures var xa := FindXAuthority(uid, h);
      (xa != "" <==> BindMount(xa, XAuthorityTarget) in r)
      && (xa != "" ==> r[|r| - 1] == BindMount(xa, XAuthorityTarget))
    ensures forall m :: m in r ==> m in SocketChecks(uid) || m == BindMount(FindXAuthority(uid, h), XAuthorityTarget)
  {
    var sockets := PresentOf(SocketChecks(uid), h.present);
    var xa := FindXAuthority(uid, h);
    assert BindMount(xa, XAuthorityTarget) !in SocketChecks(uid);
    if xa != "" then sockets + [BindMount(xa, XAuthorityTarget)] else sockets
  }

  /** No two mounts share a container path. */
  predicate DistinctTargets(ms: seq<BindMount>) {
    forall i, j :: 0 <= i < j < |ms| ==> ms[i].container != ms[j].container
  }

  /** Keeping some of the checks keeps their targets distinct. */
  lemma {:induction false} PresentOfDistinct(checks: seq<BindMount>, present: string -> bool)
    requires DistinctTargets(checks)
    ensures DistinctTargets(PresentOf(checks, present))
  {
    if checks != [] {
      var tail := checks[1..];
      assert DistinctTargets(tail) by {
        forall i, j | 0 <= i < j < |tail| ensures tail[i].container != tail[j].container {
          assert tail[i] == checks[i + 1] && tail[j] == checks[j + 1];
        }
      }
      PresentOfDistinct(tail, present);
      var rest := PresentOf(tail, present);
      if present(checks[0].host) {
        forall m | m in rest ensures m.container != checks[0].container {
          var k :| 0 <= k < |tail| && tail[k] == m;
          assert m == checks[k + 1];
        }
        var r := [checks[0]] + rest;
        forall i, j | 0 <= i < j < |r| ensures r[i].container != r[j].container {
          assert r[j] == rest[j - 1];
          if i > 0 {
            assert r[i] == rest[i - 1];
          }
        }
      }
    }
  }

  /** No two detected mounts share a container path, so none hides
      another inside the container. */
  lemma DetectedTargetsDistinct(uid: int, h: Host)
    ensures DistinctTargets(DetectHostSockets(uid, h))
  {
    var checks := SocketChecks(uid);
    PresentOfDistinct(checks, h.present);
    var sockets := PresentOf(checks, h.present);
    var xa := FindXAuthority(uid, h);
    if xa != "" {
      var r := sockets + [BindMount(xa, XAuthorityTarget)];
      forall i, j | 0 <= i < j < |r| ensures r[i].container != r[j].container {
        if j == |sockets| {
          assert r[i] in checks;
        } else {
          assert r[i] == sockets[i] && r[j] == sockets[j];
        }
      }
    }
  }

  // ---------------------------------------------------------------------
  // Command lines

  /** `--bind=HOST:CONTAINER`. */
  function BindFlag(m: BindMount): string {
    "--bind=" + m.host + ":" + m.container
  }

  /** The host:container split this model relies on: the source up to
      the first ':', the destination after it, the same path when there
      is none. systemd-nspawn's `:options` suffix and `\:` escapes are not
      part of it. */
  function ParseBindFlag(flag: string): Option<BindMount> {
    if !HasPrefix(flag, "--bind=") then None
    else
      var spec := flag[7..];
      var src := Before(spec, ':');
      if |src| == |spec| then Some(BindMount(spec, spec))
      else Some(BindMount(src, spec[|src| + 1..]))
  }

  /** A bind flag reads back as its mount when the host path has no ':'. */
  lemma BindFlagRoundTrip(m: BindMount)
    requires ':' !in m.host
    ensures ParseBindFlag(BindFlag(m)) == Some(m)
  {
    var flag := BindFlag(m);
    PrefixOfConcat("--bind=", m.host + ":" + m.container);
    assert flag == "--bind=" + (m.host + ":" + m.container);
    var spec := flag[7..];
    assert spec == m.host + ":" + m.container;
    BeforeStopsAtFirst(m.host, m.container, ':');
    assert spec[|m.host| + 1..] == m.container;
  }

  /** `BuildBootArgs`: the root directory, the machine name, the home bind,
      the X11 socket and DRI device binds, one bind per socket in order,
      then a piped console and `-b` to boot init. */
  function BuildBootArgs(rootfs: string, machine: string, intuneHome: string, containerHome: string,
                         sockets: seq<BindMount>): (args: seq<string>)
    ensures |args| == 8 + |sockets|
    ensures args[0] == "-D" && args[1] == rootfs && args[2] == "--machine=" + machine
    ensures args[3] == BindFlag(BindMount(intuneHome, containerHome))
    ensures args[4] == "--bind=/tmp/.X11-unix" && args[5] == "--bind=/dev/dri"
    ensures forall k :: 0 <= k < |sockets| ==> args[6 + k] == BindFlag(sockets[k])
    ensures args[|args| - 2] == "--console=pipe" && args[|args| - 1] == "-b"
  {
    var home := BindMount(intuneHome, containerHome);
    ["-D", rootfs, "--machine=" + machine, BindFlag(home), "--bind=/tmp/.X11-unix", "--bind=/dev/dri"]
      + seq(|sockets|, k requires 0 <= k < |sockets| => BindFlag(sockets[k]))
      + ["--console=pipe", "-b"]
  }

  /** `BuildShellArgs`: `shell USER@MACHINE`. */
  function BuildShellArgs(machine: string, user: string): seq<string> {
    ["shell", user + "@" + machine]
  }

  /** machinectl reads the user back from the shell target, as long as the
      user name has no '@'. */
  lemma ShellTargetNamesUser(machine: string, user: string)
    requires '@' !in user
    ensures var args := BuildShellArgs(machine, user);
      |args| == 2 && args[0] == "shell" && Before(args[1], '@') == user
  {
    BeforeStopsAtFirst(user, machine, '@');
  }

  /** `Boot`: systemd-nspawn under sudo, in the background. */
  function Boot(rootfs: string, machine: string, intuneHome: string, containerHome: string,
                sockets: seq<BindMount>): (c: Command)
    ensures c.mode == Background && c.name == "sudo"
    ensures c.args == ["systemd-nspawn"] + BuildBootArgs(rootfs, machine, intuneHome, containerHome, sockets)
  {
    RunBackground("sudo", ["systemd-nspawn"] + BuildBootArgs(rootfs, machine, intuneHome, containerHome, sockets))
  }

  /** Every detected socket is bound at boot, and the boot still ends with
      `-b`. */
  lemma BootBindsDetectedSockets(rootfs: string, machine: string, intuneHome: string, containerHome: string,
                                 uid: int, h: Host)
    ensures var sockets := DetectHostSockets(uid, h);
      var c := Boot(rootfs, machine, intuneHome, containerHome, sockets);
      (forall m :: m in sockets ==> BindFlag(m) in c.args)
      && c.args[|c.args| - 1] == "-b"
  {
    BootBindsSockets(rootfs, machine, intuneHome, containerHome, DetectHostSockets(uid, h));
  }

  /** Every socket passed to `Boot` is bound, and the boot ends with `-b`. */
  lemma BootBindsSockets(rootfs: string, machine: string, intuneHome: string, containerHome: string,
                         sockets: seq<BindMount>)
    ensures var c := Boot(rootfs, machine, intuneHome, containerHome, sockets);
      (forall m :: m in sockets ==> BindFlag(m) in c.args)
      && c.args[|c.args| - 1] == "-b"
  {
    var c := Boot(rootfs, machine, intuneHome, containerHome, sockets);
    forall m | m in sockets ensures BindFlag(m) in c.args {
      var k :| 0 <= k < |sockets| && sockets[k] == m;
      assert c.args[7 + k] == BindFlag(m);
    }
  }

  function ValidateSudo(): Command {
    RunAttached("sudo", ["-v"])
  }

  /** `IsRunning`: the machine is registered when `machinectl show`
      succeeds (`showOk`). */
  function IsRunning(machine: string, showOk: bool): (r: (Command, bool))
    ensures r.0 == Run("machinectl", ["show", machine]) && r.1 == showOk
  {
    (Run("machinectl", ["show", machine]), showOk)
  }

  function Shell(machine: string, user: string): Command {
    RunAttached("machinectl", BuildShellArgs(machine, user))
  }

  datatype NspawnError = PoweroffFailed(output: string)

  /** `Stop`: `machinectl poweroff`; its output is kept in the error. */
  function Stop(machine: string, poweroff: Result<string, string>): (r: (Command, Option<NspawnError>))
    ensures r.0 == Run("machinectl", ["poweroff", machine])
    ensures r.1.None? <==> poweroff.Ok?
    ensures r.1.Some? ==> r.1.value.output == poweroff.error
  {
    (Run("machinectl", ["poweroff", machine]),
     if poweroff.Ok? then None else Some(PoweroffFailed(poweroff.error)))
  }
}
