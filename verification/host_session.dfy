/** Discovering the host's graphical session and handing it to the
    container (internal/session/session.go). Environment variables and
    glob results are inputs. */
module HostSession {
  import opened Wrappers
  import opened Text
  import opened Decimal
  import opened Paths

  datatype Session = Session(xdgRuntimeDir: string, display: string, waylandDisplay: string,
                             dbusAddress: string, xauthority: string, uid: int)

  datatype SessionError = NoDisplay | NoXAuthority(searched: seq<string>)

  const NoDisplayMessage: string := "no DISPLAY set — intune-portal requires a graphical session"

  /** The X authority file names looked for in the runtime directory, in
      order. */
  const XAuthorityPatterns: seq<string> := [".mutter-Xwaylandauth.*", "xauth_*", ".Xauthority"]

  function SearchPaths(runtimeDir: string): (r: seq<string>)
    ensures |r| == |XAuthorityPatterns|
    ensures forall k :: 0 <= k < |r| ==> r[k] == Join(runtimeDir, XAuthorityPatterns[k])
  {
    seq(|XAuthorityPatterns|, k requires 0 <= k < |XAuthorityPatterns| => Join(runtimeDir, XAuthorityPatterns[k]))
  }

  /** The position of the first path in `paths[i..]` the glob matches, or
      |paths|. */
  function FirstMatch(paths: seq<string>, glob: string -> seq<string>, i: nat): (n: nat)
    requires i <= |paths|
    ensures i <= n <= |paths|
    ensures forall k :: i <= k < n ==> glob(paths[k]) == []
    ensures n < |paths| ==> glob(paths[n]) != []
    decreases |paths| - i
  {
    if i == |paths| || glob(paths[i]) != [] then i
    else FirstMatch(paths, glob, i + 1)
  }

  /** `findXAuthority`: the first match of the first pattern that matches
      anything; when none does, the error lists every path searched. */
  function FindXAuthority(runtimeDir: string, glob: string -> seq<string>): (r: Result<string, SessionError>)
    ensures var paths := SearchPaths(runtimeDir);
      r.Ok? <==> exists k :: 0 <= k < |paths| && glob(paths[k]) != []
    ensures var paths := SearchPaths(runtimeDir);
      r.Ok? ==> exists k :: (0 <= k < |paths| && glob(paths[k]) != [] && r.value == glob(paths[k])[0]
        && forall j :: 0 <= j < k ==> glob(paths[j]) == [])
    ensures r.Err? ==> r.error == NoXAuthority(SearchPaths(runtimeDir))
  {
    var paths := SearchPaths(runtimeDir);
    var n := FirstMatch(paths, glob, 0);
    if n < |paths| then Ok(glob(paths[n])[0]) else Err(NoXAuthority(paths))
  }

  /** The error text for a missing X authority file. */
  function XAuthorityMessage(searched: seq<string>): string {
    "no XAUTHORITY found — searched for:" + ("\n  " + JoinWith(searched, "\n  ")) + "\nSet $XAUTHORITY to the correct path"
  }

  function Message(e: SessionError): string {
    match e
    case NoDisplay => NoDisplayMessage
    case NoXAuthority(searched) => XAuthorityMessage(searched)
  }

  /** The error names every searched path, each on its own indented line. */
  lemma MessageListsEverySearch(searched: seq<string>, i: nat)
    requires i < |searched|
    ensures Contains(Message(NoXAuthority(searched)), "\n  " + searched[i])
  {
    JoinListsEach(searched, "\n  ", i);
    ContainsWithin("no XAUTHORITY found — searched for:", "\n  " + JoinWith(searched, "\n  "),
                   "\nSet $XAUTHORITY to the correct path", "\n  " + searched[i]);
  }

  /** `Discover`: the runtime directory defaults to /run/user/<uid>; DISPLAY
      is required; WAYLAND_DISPLAY is optional; the bus address defaults to
      the runtime directory's `bus` socket; XAUTHORITY, when unset, is
      searched for and must be found. */
  function Discover(uid: int, env: string -> string, glob: string -> seq<string>): (r: Result<Session, SessionError>)
    ensures env("DISPLAY") == "" <==> r == Err(NoDisplay)
    ensures r.Ok? ==> var s := r.value;
      s.uid == uid && s.display == env("DISPLAY") != "" && s.waylandDisplay == env("WAYLAND_DISPLAY")
      && s.xdgRuntimeDir == (if env("XDG_RUNTIME_DIR") != "" then env("XDG_RUNTIME_DIR") else "/run/user/" + Itoa(uid))
      && s.dbusAddress == (if env("DBUS_SESSION_BUS_ADDRESS") != "" then env("DBUS_SESSION_BUS_ADDRESS")
                           else "unix:path=" + s.xdgRuntimeDir + "/bus")
    ensures r.Ok? && env("XAUTHORITY") != "" ==> r.value.xauthority == env("XAUTHORITY")
    ensures r.Ok? && env("XAUTHORITY") == "" ==> FindXAuthority(r.value.xdgRuntimeDir, glob) == Ok(r.value.xauthority)
    ensures r.Err? && r != Err(NoDisplay) ==> env("XAUTHORITY") == ""
    ensures var rd := if env("XDG_RUNTIME_DIR") != "" then env("XDG_RUNTIME_DIR") else "/run/user/" + Itoa(uid);
      env("DISPLAY") != "" && env("XAUTHORITY") == "" ==>
        (r.Ok? <==> FindXAuthority(rd, glob).Ok?)
        && (r.Err? ==> r == Err(FindXAuthority(rd, glob).error))
  {
    var runtimeDir := if env("XDG_RUNTIME_DIR") != "" then env("XDG_RUNTIME_DIR") else "/run/user/" + Itoa(uid);
    var display := env("DISPLAY");
    if display == "" then Err(NoDisplay)
    else
      var bus := if env("DBUS_SESSION_BUS_ADDRESS") != "" then env("DBUS_SESSION_BUS_ADDRESS")
                 else "unix:path=" + runtimeDir + "/bus";
      var xa := if env("XAUTHORITY") != "" then Ok(env("XAUTHORITY")) else FindXAuthority(runtimeDir, glob);
      match xa
      case Err(e) => Err(e)
      case Ok(found) => Ok(Session(runtimeDir, display, env("WAYLAND_DISPLAY"), bus, found, uid))
  }

  /** Where the host's runtime directory appears in the container. */
  function ExternalRuntimeDir(uid: int): string {
    "/run/user-external/" + Itoa(uid)
  }

  /** `ContainerXAuthority`: the X authority file under the container's
      view of the host runtime directory, keeping its file name. */
  function ContainerXAuthority(s: Session): string {
    ExternalRuntimeDir(s.uid) + "/" + Base(s.xauthority)
  }

  /** The remapped path names the same file: its base name is the host
      file's, whenever the host path has a file name at all. */
  lemma ContainerXAuthorityKeepsName(s: Session)
    requires Base(s.xauthority) != "/"
    ensures Base(ContainerXAuthority(s)) == Base(s.xauthority)
    ensures HasPrefix(ContainerXAuthority(s), ExternalRuntimeDir(s.uid) + "/")
  {
    BaseOfJoined(ExternalRuntimeDir(s.uid), Base(s.xauthority));
    PrefixOfConcat(ExternalRuntimeDir(s.uid) + "/", Base(s.xauthority));
  }

  /** `NAME=VALUE`. */
  function Setting(name: string, value: string): string {
    name + "=" + value
  }

  /** `ContainerEnv`: the variables a shell in the container needs, in
      order; WAYLAND_DISPLAY only when the host has one. */
  function ContainerEnv(s: Session): (env: seq<string>)
    ensures |env| == if s.waylandDisplay != "" then 5 else 4
  {
    var ext := ExternalRuntimeDir(s.uid);
    [ Setting("XDG_RUNTIME_DIR", ext),
      Setting("DBUS_SESSION_BUS_ADDRESS", "unix:path=" + ext + "/bus"),
      Setting("DISPLAY", s.display),
      Setting("XAUTHORITY", ContainerXAuthority(s)) ]
    + (if s.waylandDisplay != "" then [Setting("WAYLAND_DISPLAY", s.waylandDisplay)] else [])
  }

  /** How a `NAME=VALUE` setting is read: the name up to the first '=',
      the value after it. */
  function ParseSetting(e: string): (string, string) {
    var name := Before(e, '=');
    (name, if |name| < |e| then e[|name| + 1..] else "")
  }

  /** The variable names set in the container hold no '='. */
  lemma NamesHaveNoEquals()
    ensures '=' !in "XDG_RUNTIME_DIR" && '=' !in "DBUS_SESSION_BUS_ADDRESS" && '=' !in "DISPLAY"
      && '=' !in "XAUTHORITY" && '=' !in "WAYLAND_DISPLAY"
  {
  }

  lemma ParseSettingOf(name: string, value: string)
    requires '=' !in name
    ensures ParseSetting(Setting(name, value)) == (name, value)
  {
    BeforeStopsAtFirst(name, value, '=');
    assert Setting(name, value)[|name| + 1..] == value;
  }

  /** Read back, the container environment sets each variable once, to
      the host session's values remapped into the container: the bus
      socket lies in the runtime directory given, and DISPLAY and
      WAYLAND_DISPLAY pass through unchanged. */
  lemma ContainerEnvReadsBack(s: Session)
    ensures var env := ContainerEnv(s);
      var ext := ExternalRuntimeDir(s.uid);
      ParseSetting(env[0]) == ("XDG_RUNTIME_DIR", ext)
      && ParseSetting(env[1]) == ("DBUS_SESSION_BUS_ADDRESS", "unix:path=" + ParseSetting(env[0]).1 + "/bus")
      && ParseSetting(env[2]) == ("DISPLAY", s.display)
      && ParseSetting(env[3]) == ("XAUTHORITY", ContainerXAuthority(s))
      && (s.waylandDisplay != "" ==> ParseSetting(env[4]) == ("WAYLAND_DISPLAY", s.waylandDisplay))
  {
    var ext := ExternalRuntimeDir(s.uid);
    NamesHaveNoEquals();
    ParseSettingOf("XDG_RUNTIME_DIR", ext);
    ParseSettingOf("DBUS_SESSION_BUS_ADDRESS", "unix:path=" + ext + "/bus");
    ParseSettingOf("DISPLAY", s.display);
    ParseSettingOf("XAUTHORITY", ContainerXAuthority(s));
    ParseSettingOf("WAYLAND_DISPLAY", s.waylandDisplay);
  }
}
