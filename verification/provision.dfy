/** Preparing the container's root filesystem
    (internal/provision/provision.go): pulling and extracting the image
    with podman, the configuration files written into the root filesystem,
    the container user, and the host polkit rule. Files are a map from
    path to contents and symbolic links a map from link to target; whether
    each write or command succeeds is an input. */
module Provision {
  import opened Wrappers
  import opened Text
  import opened Decimal
  import opened Paths
  import opened Exec
  import opened Steps

  datatype ProvisionError =
    | PullFailed
    | CreateFailed
    | CopyFailed
    | RemoveFailed
    | WriteFailed(what: string)
    | UseraddFailed
    | PolkitFailed

  // ---------------------------------------------------------------------
  // Image

  /** `PullImage`. */
  function PullImage(image: string, ok: nat -> bool): Outcome<ProvisionError> {
    RunSteps([Step(Run("podman", ["pull", image]), true, [], PullFailed)], ok, 0)
  }

  /** One command; its failure is the only error. */
  lemma PullImageRuns(image: string, ok: nat -> bool)
    ensures PullImage(image, ok) == Outcome([Run("podman", ["pull", image])], if ok(0) then None else Some(PullFailed))
  {
    SingleStep(Run("podman", ["pull", image]), PullFailed, ok);
  }

  const ExtractContainer: string := "intuneme-extract"

  /** `ExtractRootfs`: create a container from the image, copy its whole
      file system out, remove the container. */
  function ExtractCommands(image: string, rootfs: string): (r: seq<Command>)
    ensures |r| == 3
  {
    [ Run("podman", ["create", "--name", ExtractContainer, image]),
      Run("podman", ["cp", ExtractContainer + ":/", rootfs]),
      Run("podman", ["rm", ExtractContainer]) ]
  }

  /** Every step matters; a failed copy removes the container first. */
  function ExtractRootfs(image: string, rootfs: string, ok: nat -> bool): Outcome<ProvisionError> {
    var c := ExtractCommands(image, rootfs);
    RunSteps([ Step(c[0], true, [], CreateFailed),
               Step(c[1], true, [c[2]], CopyFailed),
               Step(c[2], true, [], RemoveFailed) ], ok, 0)
  }

  /** The extraction command by command: a failed create leaves nothing
      behind to clean; a failed copy still removes the container; otherwise
      all three run and the result is the removal's. */
  lemma ExtractSequence(image: string, rootfs: string, ok: nat -> bool)
    ensures var c := ExtractCommands(image, rootfs);
      var r := ExtractRootfs(image, rootfs, ok);
      r == if !ok(0) then Outcome([c[0]], Some(CreateFailed))
           else if !ok(1) then Outcome(c, Some(CopyFailed))
           else if !ok(2) then Outcome(c, Some(RemoveFailed))
           else Outcome(c, None)
  {
    var c := ExtractCommands(image, rootfs);
    var steps := [ Step(c[0], true, [], CreateFailed), Step(c[1], true, [c[2]], CopyFailed),
                   Step(c[2], true, [], RemoveFailed) ];
    assert Commands(steps) == c;
    if !ok(0) {
      RunStepsUpTo(steps, ok, 0);
      assert c[..1] == [c[0]];
    } else if !ok(1) {
      RunStepsUpTo(steps, ok, 1);
      assert c[..2] + [c[2]] == c;
    } else if !ok(2) {
      RunStepsUpTo(steps, ok, 2);
      assert c[..3] == c;
    } else {
      RunStepsUpTo(steps, ok, 3);
    }
  }

  // ---------------------------------------------------------------------
  // Files written into the root filesystem

  datatype Disk = Disk(files: map<string, string>, links: map<string, string>)

  function EtcPath(rootfs: string, rel: string): string {
    Join(Join(rootfs, "etc"), rel)
  }

  /** The file's contents, a missing file reading as empty (read errors
      are ignored). */
  function ReadOrEmpty(files: map<string, string>, path: string): string {
    if path in files then files[path] else ""
  }

  /** `appendLine`: adds `line` and a newline at the end of the file unless
      the text is already somewhere in it. A missing file is created; when
      the file cannot be opened nothing changes. */
  function AppendLine(files: map<string, string>, path: string, line: string, openOk: bool): (r: map<string, string>)
    ensures r.Keys <= files.Keys + {path}
    ensures forall p :: p in files && p != path ==> p in r && r[p] == files[p]
    ensures openOk || Contains(ReadOrEmpty(files, path), line) ==> Contains(ReadOrEmpty(r, path), line)
    ensures path in files ==> path in r && HasPrefix(r[path], files[path])
  {
    var content := ReadOrEmpty(files, path);
    if Contains(content, line) then files
    else if openOk then
      ContainsMiddle(content, line, "\n");
      PrefixOfConcat(content, line + "\n");
      assert content + line + "\n" == content + (line + "\n");
      files[path := content + line + "\n"]
    else files
  }

  /** Appending to one file leaves every other file as it reads. */
  lemma AppendLineElsewhere(files: map<string, string>, path: string, line: string, openOk: bool, other: string)
    ensures other != path ==> ReadOrEmpty(AppendLine(files, path, line, openOk), other) == ReadOrEmpty(files, other)
  {
  }

  /** Two appends, to `a` and then to `b`: where the two files differ,
      each holds its line wherever it could be opened; every other file
      keeps its contents. */
  function AppendBoth(files: map<string, string>, a: string, la: string, oa: bool, b: string, lb: string, ob: bool):
    (r: map<string, string>)
    ensures r.Keys <= files.Keys + {a, b}
    ensures a != b && oa ==> Contains(ReadOrEmpty(r, a), la)
    ensures ob ==> Contains(ReadOrEmpty(r, b), lb)
    ensures forall p :: p in files && p != a && p != b ==> p in r && r[p] == files[p]
  {
    AppendLineElsewhere(AppendLine(files, a, la, oa), b, lb, ob, a);
    AppendLine(AppendLine(files, a, la, oa), b, lb, ob)
  }

  /** Appending the same line again changes nothing, whether or not the
      file can be opened the second time. */
  lemma AppendLineIdempotent(files: map<string, string>, path: string, line: string, open1: bool, open2: bool)
    requires open1
    ensures var once := AppendLine(files, path, line, open1);
      AppendLine(once, path, line, open2) == once
  {
  }

  const AuthLine: string := "auth optional pam_gnome_keyring.so"
  const SessionLine: string := "session optional pam_gnome_keyring.so auto_start"
  const EnvironmentText: string := "DISPLAY=:0\nNO_AT_BRIDGE=1\nGTK_A11Y=none\n"

  function HostsText(hostname: string): string {
    "127.0.0.1 " + hostname + " localhost\n"
  }

  const UnitHead: string :=
    "[Unit]\nDescription=Fix home directory ownership\nConditionPathExists=!/var/lib/fix-home-ownership-done\n\n[Service]\nType=oneshot"
  const UnitTail: string :=
    "ExecStartPost=/bin/touch /var/lib/fix-home-ownership-done\nRemainAfterExit=yes\n\n[Install]\nWantedBy=multi-user.target\n"

  /** The unit's command: hand the home directory to the container user. */
  function ChownLine(user: string, uid: int, gid: int): string {
    "ExecStart=/bin/chown -R " + Itoa(uid) + ":" + Itoa(gid) + " /home/" + user
  }

  /** `head`, then `line` on a line of its own, then `tail`. */
  function Framed(head: string, line: string, tail: string): string {
    head + "\n" + line + "\n" + tail
  }

  lemma FramedContains(head: string, line: string, tail: string)
    ensures Contains(Framed(head, line, tail), "\n" + line + "\n")
  {
    ContainsMiddle(head, "\n" + line + "\n", tail);
    assert head + ("\n" + line + "\n") + tail == Framed(head, line, tail);
  }

  /** fix-home-ownership.service, which runs once at first boot. */
  function UnitText(user: string, uid: int, gid: int): string {
    Framed(UnitHead, ChownLine(user, uid, gid), UnitTail)
  }

  /** The unit holds the chown command on a line of its own. */
  lemma UnitRunsChown(user: string, uid: int, gid: int)
    ensures Contains(UnitText(user, uid, gid), "\n" + ChownLine(user, uid, gid) + "\n")
  {
    FramedContains(UnitHead, ChownLine(user, uid, gid), UnitTail);
  }

  /** The paths WriteFixups touches. */
  datatype FixupPaths = FixupPaths(hostname: string, hosts: string, environment: string,
                                   pamAuth: string, pamSession: string, keyring: string,
                                   unit: string, wants: string)

  function PathsOf(rootfs: string, user: string): FixupPaths {
    var unit := Join(Join(EtcPath(rootfs, "systemd"), "system"), "fix-home-ownership.service");
    var wantsDir := Join(Join(EtcPath(rootfs, "systemd"), "system"), "multi-user.target.wants");
    var keyringDir := Join(Join(Join(Join(Join(rootfs, "home"), user), ".local"), "share"), "keyrings");
    FixupPaths(EtcPath(rootfs, "hostname"), EtcPath(rootfs, "hosts"), EtcPath(rootfs, "environment"),
               Join(EtcPath(rootfs, "pam.d"), "common-auth"), Join(EtcPath(rootfs, "pam.d"), "common-session"),
               Join(keyringDir, "default"), unit, Join(wantsDir, "fix-home-ownership.service"))
  }

  /** The three files under etc hold their texts. */
  predicate EtcWritten(files: map<string, string>, ps: FixupPaths, hostname: string) {
    ps.hostname in files && files[ps.hostname] == hostname + "\n"
    && ps.hosts in files && files[ps.hosts] == HostsText(hostname)
    && ps.environment in files && files[ps.environment] == EnvironmentText
  }

  /** The files every successful run leaves with fixed contents. */
  predicate FixedFilesWritten(d: Disk, ps: FixupPaths, user: string, uid: int, gid: int, hostname: string) {
    EtcWritten(d.files, ps, hostname)
    && ps.unit in d.files && d.files[ps.unit] == UnitText(user, uid, gid)
  }

  /** The first three configuration files, written one after the other; a
      failed write ends the run with its error, and the files written
      before it stay written. */
  function WriteEtc(files: map<string, string>, ps: FixupPaths, hostname: string, writeOk: string -> bool):
    (r: (map<string, string>, Option<ProvisionError>))
    ensures r.1.None? <==> writeOk(ps.hostname) && writeOk(ps.hosts) && writeOk(ps.environment)
    ensures r.1.Some? ==> r.1.value == WriteFailed(
      if !writeOk(ps.hostname) then "hostname" else if !writeOk(ps.hosts) then "hosts" else "environment")
    ensures r.0.Keys <= files.Keys + {ps.hostname, ps.hosts, ps.environment}
    ensures forall p :: p in files && p != ps.hostname && p != ps.hosts && p != ps.environment ==>
      p in r.0 && r.0[p] == files[p]
  {
    if !writeOk(ps.hostname) then (files, Some(WriteFailed("hostname")))
    else
      var f1 := files[ps.hostname := hostname + "\n"];
      if !writeOk(ps.hosts) then (f1, Some(WriteFailed("hosts")))
      else
        var f2 := f1[ps.hosts := HostsText(hostname)];
        if !writeOk(ps.environment) then (f2, Some(WriteFailed("environment")))
        else (f2[ps.environment := EnvironmentText], None)
  }

  /** What WriteEtc leaves, when the three paths differ: each file whose
      write was reached and succeeded holds its text, and a file whose
      write was not reached, or failed, is as it was. */
  lemma WriteEtcWrites(files: map<string, string>, ps: FixupPaths, hostname: string, writeOk: string -> bool)
    requires ps.hostname != ps.hosts && ps.hostname != ps.environment && ps.hosts != ps.environment
    ensures var f := WriteEtc(files, ps, hostname, writeOk).0;
      && (writeOk(ps.hostname) ==> ps.hostname in f && f[ps.hostname] == hostname + "\n")
      && (writeOk(ps.hostname) && writeOk(ps.hosts) ==> ps.hosts in f && f[ps.hosts] == HostsText(hostname))
      && (writeOk(ps.hostname) && writeOk(ps.hosts) && writeOk(ps.environment) ==>
            ps.environment in f && f[ps.environment] == EnvironmentText)
      && (!writeOk(ps.hostname) ==> f == files)
      && (!(writeOk(ps.hostname) && writeOk(ps.hosts)) ==> ReadOrEmpty(f, ps.hosts) == ReadOrEmpty(files, ps.hosts))
      && (!(writeOk(ps.hostname) && writeOk(ps.hosts) && writeOk(ps.environment)) ==>
            ReadOrEmpty(f, ps.environment) == ReadOrEmpty(files, ps.environment))
  {
  }

  /** `WriteFixups`. Writing hostname, hosts, environment and the unit
      can fail the run; the PAM lines, the keyring default file and the
      unit's enabling link are best effort. A link is only made where none
      exists yet. */
  function WriteFixups(d: Disk, rootfs: string, user: string, uid: int, gid: int, hostname: string,
                       writeOk: string -> bool): (r: (Disk, Option<ProvisionError>))
    ensures var ps := PathsOf(rootfs, user);
      r.1.None? <==> writeOk(ps.hostname) && writeOk(ps.hosts) && writeOk(ps.environment) && writeOk(ps.unit)
  {
    WriteFixupsAt(d, PathsOf(rootfs, user), hostname, UnitText(user, uid, gid), writeOk)
  }

  /** The writes whose failure is ignored: the PAM lines and the keyring
      default file. Each lands where it could be written, unless a later
      one shares its path; nothing else changes. */
  function BestEffort(files: map<string, string>, ps: FixupPaths, writeOk: string -> bool): (r: map<string, string>)
    ensures r.Keys <= files.Keys + {ps.pamAuth, ps.pamSession, ps.keyring}
    ensures forall p :: p in files && p != ps.pamAuth && p != ps.pamSession && p != ps.keyring ==>
      p in r && r[p] == files[p]
    ensures writeOk(ps.pamAuth) && ps.pamAuth != ps.pamSession && ps.pamAuth != ps.keyring ==>
      Contains(ReadOrEmpty(r, ps.pamAuth), AuthLine)
    ensures writeOk(ps.pamSession) && ps.pamSession != ps.keyring ==>
      Contains(ReadOrEmpty(r, ps.pamSession), SessionLine)
    ensures writeOk(ps.keyring) ==> ps.keyring in r && r[ps.keyring] == "login\n"
  {
    var f5 := AppendBoth(files, ps.pamAuth, AuthLine, writeOk(ps.pamAuth), ps.pamSession, SessionLine, writeOk(ps.pamSession));
    if writeOk(ps.keyring) then f5[ps.keyring := "login\n"] else f5
  }

  /** The writes of WriteFixups, at the paths `ps`, with the unit's text
      given. */
  function WriteFixupsAt(d: Disk, ps: FixupPaths, hostname: string, unit: string,
                         writeOk: string -> bool): (r: (Disk, Option<ProvisionError>))
    ensures r.1.None? <==> writeOk(ps.hostname) && writeOk(ps.hosts) && writeOk(ps.environment) && writeOk(ps.unit)
  {
    var (f3, e) := WriteEtc(d.files, ps, hostname, writeOk);
    if e.Some? then (Disk(f3, d.links), e)
    else
      var f6 := BestEffort(f3, ps, writeOk);
      if !writeOk(ps.unit) then (Disk(f6, d.links), Some(WriteFailed("fix-home-ownership.service")))
      else
        var f7 := f6[ps.unit := unit];
        var links := if writeOk(ps.wants) && ps.wants !in d.links then d.links[ps.wants := ps.unit] else d.links;
        (Disk(f7, links), None)
  }

  /** The files WriteFixups writes, in the order it writes them. */
  function FilePaths(ps: FixupPaths): seq<string> {
    [ps.hostname, ps.hosts, ps.environment, ps.pamAuth, ps.pamSession, ps.keyring, ps.unit]
  }

  predicate Distinct(s: seq<string>) {
    forall i, j :: 0 <= i < j < |s| ==> s[i] != s[j]
  }

  /** `Join` of a directory with no trailing slash adds exactly one. */
  lemma JoinPlain(dir: string, rel: string)
    requires dir != "" && dir[|dir| - 1] != '/'
    ensures |Join(dir, rel)| == |dir| + 1 + |rel|
    ensures rel != "" ==> Join(dir, rel)[|Join(dir, rel)| - 1] == rel[|rel| - 1]
  {
  }

  /** Two joins below a directory with no trailing slash. */
  lemma JoinPlain2(dir: string, a: string, b: string, k: nat)
    requires dir != "" && dir[|dir| - 1] != '/' && a != "" && a[|a| - 1] != '/' && k < |dir|
    ensures |Join(Join(dir, a), b)| == |dir| + |a| + |b| + 2
    ensures Join(Join(dir, a), b)[k] == dir[k]
  {
    JoinPlain(dir, a);
  }

  /** A path under etc: its length past the root, and the letter that
      follows the root. */
  predicate UnderEtc(p: string, h: string, len: nat) {
    len > 0 && |p| == |h| + len && p[|h|] == 'e'
  }

  lemma EtcDir(rootfs: string)
    ensures var e := Join(rootfs, "etc");
      e != "" && e[|e| - 1] != '/' && UnderEtc(e, JoinHead(rootfs), 3)
  {
    JoinAfterHead(rootfs, "etc");
  }

  lemma EtcFile(rootfs: string, name: string)
    requires name != ""
    ensures UnderEtc(EtcPath(rootfs, name), JoinHead(rootfs), 4 + |name|)
  {
    EtcDir(rootfs);
    var e := Join(rootfs, "etc");
    JoinPlain(e, name);
    JoinKeepsDir(e, name, |JoinHead(rootfs)|);
  }

  lemma EtcFile2(rootfs: string, dir: string, name: string)
    requires dir != "" && dir[|dir| - 1] != '/'
    ensures UnderEtc(Join(EtcPath(rootfs, dir), name), JoinHead(rootfs), 5 + |dir| + |name|)
  {
    EtcDir(rootfs);
    JoinPlain2(Join(rootfs, "etc"), dir, name, |JoinHead(rootfs)|);
  }

  lemma UnitPath(rootfs: string)
    ensures UnderEtc(Join(Join(EtcPath(rootfs, "systemd"), "system"), "fix-home-ownership.service"),
                     JoinHead(rootfs), 45)
  {
    var h := JoinHead(rootfs);
    var sd := EtcPath(rootfs, "systemd");
    EtcFile(rootfs, "systemd");
    EtcDir(rootfs);
    JoinPlain(Join(rootfs, "etc"), "systemd");
    JoinPlain2(sd, "system", "fix-home-ownership.service", |h|);
  }

  lemma EtcPaths(rootfs: string, user: string)
    ensures var h := JoinHead(rootfs);
      var ps := PathsOf(rootfs, user);
      UnderEtc(ps.hostname, h, 12) && UnderEtc(ps.hosts, h, 9) && UnderEtc(ps.environment, h, 15)
      && UnderEtc(ps.pamAuth, h, 21) && UnderEtc(ps.pamSession, h, 24) && UnderEtc(ps.unit, h, 45)
  {
    EtcFile(rootfs, "hostname");
    EtcFile(rootfs, "hosts");
    EtcFile(rootfs, "environment");
    EtcFile2(rootfs, "pam.d", "common-auth");
    EtcFile2(rootfs, "pam.d", "common-session");
    UnitPath(rootfs);
  }

  /** The keyring file lies under home. */
  lemma KeyringPath(rootfs: string, user: string)
    ensures var h := JoinHead(rootfs);
      var k := PathsOf(rootfs, user).keyring;
      |h| < |k| && k[|h|] == 'h'
  {
    var h := JoinHead(rootfs);
    var home := Join(rootfs, "home");
    JoinAfterHead(rootfs, "home");
    assert home[|h|] == 'h';
    var k1 := Join(home, user);
    JoinKeepsDir(home, user, |h|);
    var k2 := Join(k1, ".local");
    JoinKeepsDir(k1, ".local", |h|);
    var k3 := Join(k2, "share");
    JoinKeepsDir(k2, "share", |h|);
    var k4 := Join(k3, "keyrings");
    JoinKeepsDir(k3, "keyrings", |h|);
    JoinKeepsDir(k4, "default", |h|);
  }

  /** Whatever the root and the user name, the seven files lie at seven
      different paths, so no write undoes an earlier one: the paths under
      etc have pairwise different lengths, and the keyring file lies under
      home rather than etc. */
  lemma PathsApart(rootfs: string, user: string)
    ensures Distinct(FilePaths(PathsOf(rootfs, user)))
  {
    EtcPaths(rootfs, user);
    KeyringPath(rootfs, user);
    var ps := PathsOf(rootfs, user);
    SevenApart(ps.hostname, ps.hosts, ps.environment, ps.pamAuth, ps.pamSession, ps.keyring, ps.unit,
               JoinHead(rootfs));
  }

  lemma SevenApart(a: string, b: string, c: string, d: string, e: string, k: string, u: string, h: string)
    requires UnderEtc(a, h, 12) && UnderEtc(b, h, 9) && UnderEtc(c, h, 15)
    requires UnderEtc(d, h, 21) && UnderEtc(e, h, 24) && UnderEtc(u, h, 45)
    requires |h| < |k| && k[|h|] == 'h'
    ensures Distinct([a, b, c, d, e, k, u])
  {
  }

  /** Distinct paths, one pair at a time. */
  lemma Apart(ps: FixupPaths)
    requires Distinct(FilePaths(ps))
    ensures ps.hostname != ps.hosts && ps.hostname != ps.environment && ps.hosts != ps.environment
    ensures ps.pamAuth != ps.hostname && ps.pamAuth != ps.hosts && ps.pamAuth != ps.environment
    ensures ps.pamSession != ps.hostname && ps.pamSession != ps.hosts && ps.pamSession != ps.environment
    ensures ps.keyring != ps.hostname && ps.keyring != ps.hosts && ps.keyring != ps.environment
    ensures ps.unit != ps.hostname && ps.unit != ps.hosts && ps.unit != ps.environment
    ensures ps.pamAuth != ps.pamSession && ps.pamAuth != ps.keyring && ps.pamAuth != ps.unit
    ensures ps.pamSession != ps.keyring && ps.pamSession != ps.unit && ps.keyring != ps.unit
  {
    var fs := FilePaths(ps);
    assert fs[0] == ps.hostname && fs[1] == ps.hosts && fs[2] == ps.environment && fs[3] == ps.pamAuth;
    assert fs[4] == ps.pamSession && fs[5] == ps.keyring && fs[6] == ps.unit;
  }

  /** A run whose four required writes succeed reports no error and leaves
      hostname, hosts, environment and the unit with their fixed contents;
      the PAM files hold their keyring lines and the keyring default file
      reads "login" wherever those files could be written; an existing
      link is never replaced. */
  lemma FixupsSucceed(d: Disk, rootfs: string, user: string, uid: int, gid: int, hostname: string,
                      writeOk: string -> bool)
    requires var ps := PathsOf(rootfs, user);
      writeOk(ps.hostname) && writeOk(ps.hosts) && writeOk(ps.environment) && writeOk(ps.unit)
    ensures var ps := PathsOf(rootfs, user);
      var r := WriteFixups(d, rootfs, user, uid, gid, hostname, writeOk);
      r.1 == None && FixedFilesWritten(r.0, ps, user, uid, gid, hostname)
      && (writeOk(ps.pamAuth) ==> Contains(ReadOrEmpty(r.0.files, ps.pamAuth), AuthLine))
      && (writeOk(ps.pamSession) ==> Contains(ReadOrEmpty(r.0.files, ps.pamSession), SessionLine))
      && (writeOk(ps.keyring) ==> ps.keyring in r.0.files && r.0.files[ps.keyring] == "login\n")
      && r.0.links == if writeOk(ps.wants) && ps.wants !in d.links then d.links[ps.wants := ps.unit] else d.links
  {
    PathsApart(rootfs, user);
    SucceedAt(d, PathsOf(rootfs, user), hostname, UnitText(user, uid, gid), writeOk);
    SucceedAtBestEffort(d, PathsOf(rootfs, user), hostname, UnitText(user, uid, gid), writeOk);
  }

  /** The required files, when their writes succeed. */
  lemma SucceedAt(d: Disk, ps: FixupPaths, hostname: string, unit: string, writeOk: string -> bool)
    requires Distinct(FilePaths(ps))
    requires writeOk(ps.hostname) && writeOk(ps.hosts) && writeOk(ps.environment) && writeOk(ps.unit)
    ensures var r := WriteFixupsAt(d, ps, hostname, unit, writeOk);
      r.1 == None
      && ps.hostname in r.0.files && r.0.files[ps.hostname] == hostname + "\n"
      && ps.hosts in r.0.files && r.0.files[ps.hosts] == HostsText(hostname)
      && ps.environment in r.0.files && r.0.files[ps.environment] == EnvironmentText
      && ps.unit in r.0.files && r.0.files[ps.unit] == unit
  {
    Apart(ps);
    WriteEtcWrites(d.files, ps, hostname, writeOk);
    var f3 := WriteEtc(d.files, ps, hostname, writeOk).0;
    var f6 := BestEffort(f3, ps, writeOk);
    assert f6[ps.hostname] == f3[ps.hostname] && f6[ps.hosts] == f3[ps.hosts]
      && f6[ps.environment] == f3[ps.environment];
    var f7 := f6[ps.unit := unit];
    assert WriteFixupsAt(d, ps, hostname, unit, writeOk).0.files == f7;
  }

  /** The best-effort files and the link, in a run that succeeds. */
  lemma SucceedAtBestEffort(d: Disk, ps: FixupPaths, hostname: string, unit: string, writeOk: string -> bool)
    requires Distinct(FilePaths(ps))
    requires writeOk(ps.hostname) && writeOk(ps.hosts) && writeOk(ps.environment) && writeOk(ps.unit)
    ensures var r := WriteFixupsAt(d, ps, hostname, unit, writeOk);
      (writeOk(ps.pamAuth) ==> Contains(ReadOrEmpty(r.0.files, ps.pamAuth), AuthLine))
      && (writeOk(ps.pamSession) ==> Contains(ReadOrEmpty(r.0.files, ps.pamSession), SessionLine))
      && (writeOk(ps.keyring) ==> ps.keyring in r.0.files && r.0.files[ps.keyring] == "login\n")
      && r.0.links == if writeOk(ps.wants) && ps.wants !in d.links then d.links[ps.wants := ps.unit] else d.links
  {
    Apart(ps);
    var f3 := WriteEtc(d.files, ps, hostname, writeOk).0;
    var f6 := BestEffort(f3, ps, writeOk);
    assert WriteFixupsAt(d, ps, hostname, unit, writeOk).0.files == f6[ps.unit := unit];
  }

  /** A run that fails stops at the first required write that fails and
      names it. The files under etc written before the failure keep their
      new texts and nothing else changes; a failure of the unit leaves the
      unit file and the links as they were. */
  lemma StopAt(d: Disk, ps: FixupPaths, hostname: string, unit: string, writeOk: string -> bool)
    requires Distinct(FilePaths(ps))
    requires !(writeOk(ps.hostname) && writeOk(ps.hosts) && writeOk(ps.environment) && writeOk(ps.unit))
    ensures var r := WriteFixupsAt(d, ps, hostname, unit, writeOk);
      && r.1 == Some(WriteFailed(
        if !writeOk(ps.hostname) then "hostname" else if !writeOk(ps.hosts) then "hosts"
        else if !writeOk(ps.environment) then "environment" else "fix-home-ownership.service"))
      && (!writeOk(ps.hostname) ==> r.0 == d)
      && (writeOk(ps.hostname) && !writeOk(ps.hosts) ==>
            r.0 == Disk(d.files[ps.hostname := hostname + "\n"], d.links))
      && (writeOk(ps.hostname) && writeOk(ps.hosts) && !writeOk(ps.environment) ==>
            r.0 == Disk(d.files[ps.hostname := hostname + "\n"][ps.hosts := HostsText(hostname)], d.links))
      && (writeOk(ps.hostname) && writeOk(ps.hosts) && writeOk(ps.environment) ==>
            EtcWritten(r.0.files, ps, hostname))
      && r.0.links == d.links
      && ReadOrEmpty(r.0.files, ps.unit) == ReadOrEmpty(d.files, ps.unit)
  {
    Apart(ps);
    var f3 := WriteEtc(d.files, ps, hostname, writeOk).0;
    assert ReadOrEmpty(f3, ps.unit) == ReadOrEmpty(d.files, ps.unit);
    if writeOk(ps.hostname) && writeOk(ps.hosts) && writeOk(ps.environment) {
      WriteEtcWrites(d.files, ps, hostname, writeOk);
      var f6 := BestEffort(f3, ps, writeOk);
      assert ReadOrEmpty(f6, ps.unit) == ReadOrEmpty(f3, ps.unit);
    }
  }

  /** Appending a line the file already holds, or to a file that cannot
      be opened, changes nothing. */
  lemma AppendLineNoop(files: map<string, string>, path: string, line: string, openOk: bool)
    requires openOk ==> Contains(ReadOrEmpty(files, path), line)
    ensures AppendLine(files, path, line, openOk) == files
  {
  }

  /** The best-effort writes change nothing once their results are in
      place. */
  lemma BestEffortNoop(files: map<string, string>, ps: FixupPaths, writeOk: string -> bool)
    requires writeOk(ps.pamAuth) ==> Contains(ReadOrEmpty(files, ps.pamAuth), AuthLine)
    requires writeOk(ps.pamSession) ==> Contains(ReadOrEmpty(files, ps.pamSession), SessionLine)
    requires writeOk(ps.keyring) ==> ps.keyring in files && files[ps.keyring] == "login\n"
    ensures BestEffort(files, ps, writeOk) == files
  {
    AppendLineNoop(files, ps.pamAuth, AuthLine, writeOk(ps.pamAuth));
    AppendLineNoop(files, ps.pamSession, SessionLine, writeOk(ps.pamSession));
  }

  /** WriteEtc changes nothing once the three files hold their texts. */
  lemma WriteEtcNoop(files: map<string, string>, ps: FixupPaths, hostname: string, writeOk: string -> bool)
    requires writeOk(ps.hostname) && writeOk(ps.hosts) && writeOk(ps.environment)
    requires ps.hostname in files && files[ps.hostname] == hostname + "\n"
    requires ps.hosts in files && files[ps.hosts] == HostsText(hostname)
    requires ps.environment in files && files[ps.environment] == EnvironmentText
    ensures WriteEtc(files, ps, hostname, writeOk) == (files, None)
  {
    assert files[ps.hostname := hostname + "\n"] == files;
    assert files[ps.hosts := HostsText(hostname)] == files;
    assert files[ps.environment := EnvironmentText] == files;
  }

  /** Running the fixups a second time changes nothing and reports the
      same outcome. */
  lemma IdempotentAt(d: Disk, ps: FixupPaths, hostname: string, unit: string, writeOk: string -> bool)
    requires Distinct(FilePaths(ps))
    ensures var r := WriteFixupsAt(d, ps, hostname, unit, writeOk);
      WriteFixupsAt(r.0, ps, hostname, unit, writeOk) == r
  {
    Apart(ps);
    if writeOk(ps.hostname) && writeOk(ps.hosts) && writeOk(ps.environment) {
      WriteEtcWrites(d.files, ps, hostname, writeOk);
      var f6 := BestEffort(WriteEtc(d.files, ps, hostname, writeOk).0, ps, writeOk);
      if writeOk(ps.unit) {
        RerunAfterUnit(d, f6, ps, hostname, unit, writeOk);
      } else {
        RerunBeforeUnit(d, f6, ps, hostname, unit, writeOk);
      }
    } else {
      RerunEtcFailed(d.files, ps, hostname, writeOk);
    }
  }

  /** A run that failed under etc fails the same way again, leaving the
      files as the first run left them. */
  lemma RerunEtcFailed(files: map<string, string>, ps: FixupPaths, hostname: string, writeOk: string -> bool)
    requires ps.hostname != ps.hosts
    requires !(writeOk(ps.hostname) && writeOk(ps.hosts) && writeOk(ps.environment))
    ensures var r := WriteEtc(files, ps, hostname, writeOk);
      WriteEtc(r.0, ps, hostname, writeOk) == r
  {
    if writeOk(ps.hostname) {
      var f1 := files[ps.hostname := hostname + "\n"];
      assert f1[ps.hostname := hostname + "\n"] == f1;
      if writeOk(ps.hosts) {
        var f2 := f1[ps.hosts := HostsText(hostname)];
        assert f2[ps.hostname := hostname + "\n"] == f2;
        assert f2[ps.hostname := hostname + "\n"][ps.hosts := HostsText(hostname)] == f2;
      }
    }
  }

  /** The files after the best-effort writes of a run whose etc writes
      succeeded. */
  predicate AfterBestEffort(f6: map<string, string>, ps: FixupPaths, hostname: string, writeOk: string -> bool) {
    ps.hostname in f6 && f6[ps.hostname] == hostname + "\n"
    && ps.hosts in f6 && f6[ps.hosts] == HostsText(hostname)
    && ps.environment in f6 && f6[ps.environment] == EnvironmentText
    && (writeOk(ps.pamAuth) ==> Contains(ReadOrEmpty(f6, ps.pamAuth), AuthLine))
    && (writeOk(ps.pamSession) ==> Contains(ReadOrEmpty(f6, ps.pamSession), SessionLine))
    && (writeOk(ps.keyring) ==> ps.keyring in f6 && f6[ps.keyring] == "login\n")
  }

  lemma RerunBeforeUnit(d: Disk, f6: map<string, string>, ps: FixupPaths, hostname: string, unit: string,
                        writeOk: string -> bool)
    requires Distinct(FilePaths(ps))
    requires writeOk(ps.hostname) && writeOk(ps.hosts) && writeOk(ps.environment) && !writeOk(ps.unit)
    requires f6 == BestEffort(WriteEtc(d.files, ps, hostname, writeOk).0, ps, writeOk)
    ensures var r := WriteFixupsAt(d, ps, hostname, unit, writeOk);
      WriteFixupsAt(r.0, ps, hostname, unit, writeOk) == r
  {
    Apart(ps);
    WriteEtcWrites(d.files, ps, hostname, writeOk);
    assert AfterBestEffort(f6, ps, hostname, writeOk);
    WriteEtcNoop(f6, ps, hostname, writeOk);
    BestEffortNoop(f6, ps, writeOk);
  }

  lemma RerunAfterUnit(d: Disk, f6: map<string, string>, ps: FixupPaths, hostname: string, unit: string,
                       writeOk: string -> bool)
    requires Distinct(FilePaths(ps))
    requires writeOk(ps.hostname) && writeOk(ps.hosts) && writeOk(ps.environment) && writeOk(ps.unit)
    requires f6 == BestEffort(WriteEtc(d.files, ps, hostname, writeOk).0, ps, writeOk)
    ensures var r := WriteFixupsAt(d, ps, hostname, unit, writeOk);
      WriteFixupsAt(r.0, ps, hostname, unit, writeOk) == r
  {
    Apart(ps);
    WriteEtcWrites(d.files, ps, hostname, writeOk);
    assert AfterBestEffort(f6, ps, hostname, writeOk);
    var f7 := f6[ps.unit := unit];
    UnitWriteKeeps(f6, ps, hostname, unit, writeOk);
    WriteEtcNoop(f7, ps, hostname, writeOk);
    BestEffortNoop(f7, ps, writeOk);
    var links := if writeOk(ps.wants) && ps.wants !in d.links then d.links[ps.wants := ps.unit] else d.links;
    assert WriteFixupsAt(d, ps, hostname, unit, writeOk) == (Disk(f7, links), None);
    StableRerun(Disk(f7, links), ps, hostname, unit, writeOk);
  }

  /** A disk that already holds every fixup, with the link in place when
      it can be made, is left as it is by a successful run. */
  lemma StableRerun(d: Disk, ps: FixupPaths, hostname: string, unit: string, writeOk: string -> bool)
    requires writeOk(ps.hostname) && writeOk(ps.hosts) && writeOk(ps.environment) && writeOk(ps.unit)
    requires WriteEtc(d.files, ps, hostname, writeOk) == (d.files, None)
    requires BestEffort(d.files, ps, writeOk) == d.files
    requires ps.unit in d.files && d.files[ps.unit] == unit
    requires writeOk(ps.wants) ==> ps.wants in d.links
    ensures WriteFixupsAt(d, ps, hostname, unit, writeOk) == (d, None)
  {
    assert d.files[ps.unit := unit] == d.files;
  }

  /** Writing the unit disturbs none of the other fixups. */
  lemma UnitWriteKeeps(f6: map<string, string>, ps: FixupPaths, hostname: string, unit: string,
                       writeOk: string -> bool)
    requires Distinct(FilePaths(ps))
    requires AfterBestEffort(f6, ps, hostname, writeOk)
    ensures AfterBestEffort(f6[ps.unit := unit], ps, hostname, writeOk)
  {
    Apart(ps);
    assert ReadOrEmpty(f6[ps.unit := unit], ps.pamAuth) == ReadOrEmpty(f6, ps.pamAuth);
    assert ReadOrEmpty(f6[ps.unit := unit], ps.pamSession) == ReadOrEmpty(f6, ps.pamSession);
  }

  /** `WriteFixups`, failing: the error names the first required write
      that failed; hostname, then hosts, are left written when a later
      file under etc fails, and all three hold their texts when only the
      unit fails; the unit file and the links are untouched. */
  lemma FixupsFail(d: Disk, rootfs: string, user: string, uid: int, gid: int, hostname: string,
                   writeOk: string -> bool)
    requires var ps := PathsOf(rootfs, user);
      !(writeOk(ps.hostname) && writeOk(ps.hosts) && writeOk(ps.environment) && writeOk(ps.unit))
    ensures var ps := PathsOf(rootfs, user);
      var r := WriteFixups(d, rootfs, user, uid, gid, hostname, writeOk);
      && r.1 == Some(WriteFailed(
        if !writeOk(ps.hostname) then "hostname" else if !writeOk(ps.hosts) then "hosts"
        else if !writeOk(ps.environment) then "environment" else "fix-home-ownership.service"))
      && (!writeOk(ps.hostname) ==> r.0 == d)
      && (writeOk(ps.hostname) && !writeOk(ps.hosts) ==>
            r.0 == Disk(d.files[ps.hostname := hostname + "\n"], d.links))
      && (writeOk(ps.hostname) && writeOk(ps.hosts) && !writeOk(ps.environment) ==>
            r.0 == Disk(d.files[ps.hostname := hostname + "\n"][ps.hosts := HostsText(hostname)], d.links))
      && (writeOk(ps.hostname) && writeOk(ps.hosts) && writeOk(ps.environment) ==>
            EtcWritten(r.0.files, ps, hostname))
      && r.0.links == d.links
      && ReadOrEmpty(r.0.files, ps.unit) == ReadOrEmpty(d.files, ps.unit)
  {
    PathsApart(rootfs, user);
    StopAt(d, PathsOf(rootfs, user), hostname, UnitText(user, uid, gid), writeOk);
  }

  /** Running `WriteFixups` twice is the same as running it once. */
  lemma FixupsIdempotent(d: Disk, rootfs: string, user: string, uid: int, gid: int, hostname: string,
                         writeOk: string -> bool)
    ensures var r := WriteFixups(d, rootfs, user, uid, gid, hostname, writeOk);
      WriteFixups(r.0, rootfs, user, uid, gid, hostname, writeOk) == r
  {
    PathsApart(rootfs, user);
    IdempotentAt(d, PathsOf(rootfs, user), hostname, UnitText(user, uid, gid), writeOk);
  }

  /** The hosts file maps 127.0.0.1 to the hostname and to localhost: its
      line splits on spaces into exactly those three fields. */
  lemma HostsLineReadsBack(hostname: string)
    requires ' ' !in hostname
    ensures Split(HostsText(hostname), ' ') == ["127.0.0.1", hostname, "localhost\n"]
  {
    assert HostsText(hostname) == "127.0.0.1" + [' '] + hostname + [' '] + "localhost\n";
    SplitThree("127.0.0.1", hostname, "localhost\n", ' ');
  }

  // ---------------------------------------------------------------------
  // Container user

  const UserGroups: string := "adm,sudo,video,audio"

  /** `CreateContainerUser`: useradd, run inside the root filesystem. The
      group id is not passed: the user's primary group is whatever useradd
      chooses. */
  function UseraddCommand(rootfs: string, user: string, uid: int): Command {
    Run("sudo", ["systemd-nspawn", "-D", rootfs, "--pipe", "useradd", "--uid", Itoa(uid),
                 "--create-home", "--shell", "/bin/bash", "--groups", UserGroups, user])
  }

  function CreateContainerUser(rootfs: string, user: string, uid: int, gid: int, ok: nat -> bool): Outcome<ProvisionError> {
    RunSteps([Step(UseraddCommand(rootfs, user, uid), true, [], UseraddFailed)], ok, 0)
  }

  /** The command runs useradd in `rootfs`, names `user` last, and its
      --uid value reads back as `uid`. */
  lemma UseraddReadsBack(rootfs: string, user: string, uid: Int64)
    ensures var c := UseraddCommand(rootfs, user, uid);
      c.name == "sudo" && c.args[0] == "systemd-nspawn" && c.args[1] == "-D" && c.args[2] == rootfs
      && c.args[4] == "useradd" && c.args[5] == "--uid" && Atoi(c.args[6]) == Some(uid)
      && c.args[|c.args| - 1] == user
  {
    AtoiItoa(uid);
  }

  /** One command, whose failure is the only error. */
  lemma CreateContainerUserRuns(rootfs: string, user: string, uid: int, gid: int, ok: nat -> bool)
    ensures var o := CreateContainerUser(rootfs, user, uid, gid, ok);
      o.commands == [UseraddCommand(rootfs, user, uid)]
      && (o.err == None <==> ok(0)) && (o.err != None ==> o.err == Some(UseraddFailed))
  {
    SingleStep(UseraddCommand(rootfs, user, uid), UseraddFailed, ok);
  }

  // ---------------------------------------------------------------------
  // Host polkit rule

  /** The machined actions the rule grants to members of the sudo group. */
  const PolkitActions: seq<string> := [
    "org.freedesktop.machine1.manage-machines",
    "org.freedesktop.machine1.manage-images",
    "org.freedesktop.machine1.login",
    "org.freedesktop.machine1.shell",
    "org.freedesktop.machine1.host-shell"
  ]

  function ActionTest(id: string): string {
    "action.id == \"" + id + "\""
  }

  function ActionTests(ids: seq<string>): (r: seq<string>)
    ensures |r| == |ids| && forall k :: 0 <= k < |ids| ==> r[k] == ActionTest(ids[k])
  {
    seq(|ids|, k requires 0 <= k < |ids| => ActionTest(ids[k]))
  }

  const GroupTest: string := "subject.isInGroup(\"sudo\")"
  const RuleOpen: string := "polkit.addRule("
  const RuleHead: string := RuleOpen + "function(action, " + "subject) {\n    if (("
  const RuleSeparator: string := " ||\n         "
  const RuleGrant: string := ") {\n        " + "return polkit.Result.YES;" + "\n    }\n});\n"
  const RuleTail: string := ") &&\n        " + GroupTest + RuleGrant

  /** 50-intuneme.rules: any of the actions, asked for by a member of the
      sudo group, is allowed. */
  function PolkitRule(): string {
    RuleHead + JoinWith(ActionTests(PolkitActions), RuleSeparator) + RuleTail
  }

  /** The rule tests for every listed action, and for the sudo group. */
  lemma RuleAllowsEachAction(i: nat)
    requires i < |PolkitActions|
    ensures Contains(PolkitRule(), ActionTest(PolkitActions[i]))
    ensures Contains(PolkitRule(), GroupTest)
  {
    var tests := ActionTests(PolkitActions);
    JoinContainsEach(tests, RuleSeparator, i);
    ContainsWithin(RuleHead, JoinWith(tests, RuleSeparator), RuleTail, tests[i]);
    var tailHead := ") &&\n        ";
    ContainsMiddle(tailHead, GroupTest, RuleGrant);
    ContainsWithin(RuleHead + JoinWith(tests, RuleSeparator), RuleTail, "", GroupTest);
    assert RuleHead + JoinWith(tests, RuleSeparator) + RuleTail + "" == PolkitRule();
  }

  function RulePath(rulesDir: string): string {
    Join(rulesDir, "50-intuneme.rules")
  }

  /** A command together with what it reads on its standard input. The
      captured runner gives a command no standard input of its own, which
      reads as empty. */
  datatype Invocation = Invocation(cmd: Command, stdin: string)

  /** tee's file operands: every argument that is not an option. */
  function TeeOperands(args: seq<string>): (r: seq<string>)
    ensures forall a :: a in r <==> a in args && (a == "" || a[0] != '-')
  {
    if args == [] then []
    else (if args[0] == "" || args[0][0] != '-' then [args[0]] else []) + TeeOperands(args[1..])
  }

  /** tee opens an operand when every component of its path fits in a
      file name and the file can be created there (`creatable`: the
      directory exists and may be written). */
  predicate TeeOpens(p: string, creatable: string -> bool) {
    NamesFit(p) && creatable(p)
  }

  predicate IsTee(inv: Invocation) {
    inv.cmd.name == "sudo" && inv.cmd.args != [] && inv.cmd.args[0] == "tee"
  }

  /** The files `sudo tee <args>` writes: tee opens every operand first,
      then copies its whole standard input to each one it opened. An
      operand it could not open is skipped. Anything else writes
      nothing. */
  function TeeWrites(inv: Invocation, creatable: string -> bool): (w: map<string, string>)
    ensures IsTee(inv) ==>
      forall p :: p in w <==> p in TeeOperands(inv.cmd.args[1..]) && TeeOpens(p, creatable)
    ensures !IsTee(inv) ==> w == map[]
    ensures forall p :: p in w ==> w[p] == inv.stdin
  {
    if IsTee(inv) then
      map p | p in TeeOperands(inv.cmd.args[1..]) && TeeOpens(p, creatable) :: inv.stdin
    else map[]
  }

  /** tee exits with status 0 only when it opened every operand. */
  predicate TeeSucceeds(inv: Invocation, creatable: string -> bool) {
    IsTee(inv) ==> forall p :: p in TeeOperands(inv.cmd.args[1..]) ==> TeeOpens(p, creatable)
  }

  /** What installing the rule did: the commands and their result, and the
      files tee wrote. */
  datatype PolkitOutcome = PolkitOutcome(run: Outcome<ProvisionError>, written: map<string, string>)

  /** Installing the rule: `sudo mkdir -p`, whose failure is ignored, then
      the `sudo tee` invocation given. `ok(1)` is whether sudo got to run
      the tee step at all; the step then succeeds exactly when tee opened
      every operand, and tee writes the operands it opened whether or not
      it succeeds. */
  function Install(rulesDir: string, tee: Invocation, creatable: string -> bool, ok: nat -> bool)
    : (r: PolkitOutcome)
    ensures r.run.err == None <==> ok(1) && TeeSucceeds(tee, creatable)
    ensures r.run.err != None ==> r.run.err == Some(PolkitFailed)
    ensures r.run.commands == [Run("sudo", ["mkdir", "-p", rulesDir]), tee.cmd]
    ensures !ok(1) ==> r.written == map[]
    ensures ok(1) ==> r.written == TeeWrites(tee, creatable)
  {
    var steps := [Step(Run("sudo", ["mkdir", "-p", rulesDir]), false, [], PolkitFailed),
                  Step(tee.cmd, true, [], PolkitFailed)];
    var teeOk := ok(1) && TeeSucceeds(tee, creatable);
    var stepOk := (i: nat) => if i == 1 then teeOk else ok(i);
    var run := RunSteps(steps, stepOk, 0);
    assert Commands(steps) == [steps[0].cmd, tee.cmd];
    var written := if ok(1) then TeeWrites(tee, creatable) else map[];
    if teeOk then
      RunStepsUpTo(steps, stepOk, 2);
      PolkitOutcome(run, written)
    else
      RunStepsUpTo(steps, stepOk, 1);
      assert Commands(steps)[..2] == Commands(steps);
      PolkitOutcome(run, written)
  }

  /** `InstallPolkitRule` as written: the rule text is passed to tee as a
      second file operand, and tee's standard input is empty. */
  function InstallPolkitRuleAsWritten(rulesDir: string, creatable: string -> bool, ok: nat -> bool)
    : PolkitOutcome
  {
    Install(rulesDir, Invocation(Run("sudo", ["tee", RulePath(rulesDir), PolkitRule()]), ""), creatable, ok)
  }

  /** As written, the install always fails: the rule text, taken for a
      file name, is one component longer than a file name may be, so tee
      cannot open it and exits non-zero. What tee does write is the empty
      rules file, when it can be created; the rule reaches no file. */
  lemma AsWrittenLeavesRuleEmpty(rulesDir: string, creatable: string -> bool, ok: nat -> bool)
    requires rulesDir == "" || rulesDir[0] != '-'
    ensures var r := InstallPolkitRuleAsWritten(rulesDir, creatable, ok);
      && r.run.err == Some(PolkitFailed)
      && PolkitRule() !in r.written
      && (forall p :: p in r.written ==> r.written[p] == "")
      && (ok(1) && TeeOpens(RulePath(rulesDir), creatable) <==> RulePath(rulesDir) in r.written)
  {
    RuleTooLongForName();
    RuleIsNoOption();
    RulePathPlain(rulesDir);
    TeeUnopenableSecond(RulePath(rulesDir), PolkitRule(), "", creatable);
  }

  /** `sudo tee <path> <name>` where `name` cannot be opened: tee fails,
      and writes its input to `path` alone, when it opens it. */
  lemma TeeUnopenableSecond(path: string, name: string, text: string, creatable: string -> bool)
    requires path != "" && path[0] != '-' && name != "" && name[0] != '-'
    requires !NamesFit(name)
    ensures var inv := Invocation(Run("sudo", ["tee", path, name]), text);
      && !TeeSucceeds(inv, creatable)
      && name !in TeeWrites(inv, creatable)
      && (path in TeeWrites(inv, creatable) <==> TeeOpens(path, creatable))
  {
    var args := ["tee", path, name];
    assert args[1..] == [path, name];
    assert name in TeeOperands(args[1..]) && path in TeeOperands(args[1..]);
  }

  /** The rule text does not look like an option to tee. */
  lemma RuleIsNoOption()
    ensures PolkitRule() != "" && PolkitRule()[0] != '-'
  {
    var body := JoinWith(ActionTests(PolkitActions), RuleSeparator);
    HeadStartsPlain();
    assert (RuleHead + body)[0] == 'p';
    assert PolkitRule() == (RuleHead + body) + RuleTail;
  }

  /** `InstallPolkitRule`, corrected: the rule is tee's standard input and
      the rules file its only operand. */
  function InstallPolkitRule(rulesDir: string, creatable: string -> bool, ok: nat -> bool): PolkitOutcome {
    Install(rulesDir, Invocation(Run("sudo", ["tee", RulePath(rulesDir)]), PolkitRule()), creatable, ok)
  }

  /** Corrected, the install succeeds exactly when sudo runs tee and the
      rules file can be opened, and then it writes the rule, and only the
      rule, to the rules file. */
  lemma InstallWritesRule(rulesDir: string, creatable: string -> bool, ok: nat -> bool)
    requires rulesDir == "" || rulesDir[0] != '-'
    ensures var r := InstallPolkitRule(rulesDir, creatable, ok);
      && (r.run.err == None <==> ok(1) && TeeOpens(RulePath(rulesDir), creatable))
      && (r.run.err == None ==> r.written == map[RulePath(rulesDir) := PolkitRule()])
      && (r.run.err != None ==> r.written == map[])
  {
    RulePathPlain(rulesDir);
    TeeOne(RulePath(rulesDir), PolkitRule(), creatable);
  }

  /** `sudo tee <path>` writes its standard input to `path`, if it opens
      it, and nowhere else. */
  lemma TeeOne(path: string, text: string, creatable: string -> bool)
    requires path != "" && path[0] != '-'
    ensures var inv := Invocation(Run("sudo", ["tee", path]), text);
      && (TeeSucceeds(inv, creatable) <==> TeeOpens(path, creatable))
      && TeeWrites(inv, creatable) == (if TeeOpens(path, creatable) then map[path := text] else map[])
  {
    var args := ["tee", path];
    assert args[1..] == [path];
    assert TeeOperands(args[1..]) == [path];
  }

  /** The rule text, read as a path, is a single component of more than
      `NameMax` bytes. */
  lemma RuleTooLongForName()
    ensures !NamesFit(PolkitRule())
  {
    RuleHasNoSlash();
    RuleLength();
    OverlongName(PolkitRule());
  }

  lemma RuleHasNoSlash()
    ensures '/' !in PolkitRule()
  {
    var tests := ActionTests(PolkitActions);
    forall k | 0 <= k < |tests| ensures '/' !in tests[k] {
      ActionHasNoSlash(k);
    }
    HeadHasNoSlash();
    SeparatorHasNoSlash();
    TailHasNoSlash();
    JoinCharFree(tests, RuleSeparator, '/');
  }

  lemma ActionHasNoSlash(k: nat)
    requires k < |PolkitActions|
    ensures '/' !in ActionTest(PolkitActions[k])
  {
    assert '/' !in "action.id == \"" && '/' !in "\"";
    match k
    case 0 => assert '/' !in PolkitActions[0];
    case 1 => assert '/' !in PolkitActions[1];
    case 2 => assert '/' !in PolkitActions[2];
    case 3 => assert '/' !in PolkitActions[3];
    case 4 => assert '/' !in PolkitActions[4];
  }

  lemma HeadHasNoSlash() ensures '/' !in RuleHead {}

  lemma HeadStartsPlain() ensures RuleHead != "" && RuleHead[0] == 'p' {}

  lemma SeparatorHasNoSlash() ensures '/' !in RuleSeparator {}

  lemma TailHasNoSlash()
    ensures '/' !in RuleTail
  {
    assert '/' !in ") &&\n        ";
    GroupTestHasNoSlash();
    GrantHasNoSlash();
  }

  lemma GroupTestHasNoSlash() ensures '/' !in GroupTest {}

  lemma GrantHasNoSlash() ensures '/' !in RuleGrant {}

  /** The rule is longer than a file name may be. */
  lemma RuleLength()
    ensures |PolkitRule()| > NameMax
  {
    var tests := ActionTests(PolkitActions);
    forall k | 0 <= k < |tests| ensures |tests[k]| >= 45 {
      assert |PolkitActions[k]| >= 30;
    }
    JoinAtLeast(tests, RuleSeparator, 45);
    assert |RuleHead| > 40;
  }

  lemma RuleNotEmpty()
    ensures PolkitRule() != ""
  {
    assert |RuleHead| > 0;
  }

  /** The rules file's path is not taken for an option. */
  lemma RulePathPlain(rulesDir: string)
    requires rulesDir == "" || rulesDir[0] != '-'
    ensures RulePath(rulesDir) != "" && RulePath(rulesDir)[0] != '-'
  {
  }
}
