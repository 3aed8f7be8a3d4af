/** Host-side paths of the container's session bus and the machinectl
    argument vectors that prepare a broker session
    (internal/broker/session.go), plus the bus address and activation file
    built from them (internal/broker/proxy.go). */
module BrokerSession {
  import opened Wrappers
  import opened Text
  import opened Decimal
  import opened Paths
  import BrokerEndpoint

  /** The host directory bind-mounted into the container as /run/user/<uid>. */
  function RuntimeDir(root: string): string {
    Join(root, "runtime")
  }

  /** Where the container's session bus socket appears on the host. */
  function SessionBusSocketPath(root: string): string {
    Join(RuntimeDir(root), "bus")
  }

  /** The D-Bus address of the container's session bus, reached from the host. */
  function ContainerBusAddress(root: string): string {
    "unix:path=" + SessionBusSocketPath(root)
  }

  /** For a root that does not end in '/', the socket is `root/runtime/bus`
      and the bus address names it. */
  lemma BusAddressLayout(root: string)
    requires root != "" && root[|root| - 1] != '/'
    ensures RuntimeDir(root) == root + "/runtime"
    ensures SessionBusSocketPath(root) == root + "/runtime/bus"
    ensures ContainerBusAddress(root) == "unix:path=" + root + "/runtime/bus"
  {
    var rt := root + "/" + "runtime";
    assert rt[|rt| - 1] == 'e';
    assert SessionBusSocketPath(root) == rt + "/" + "bus";
  }

  /** A D-Bus service activation file that starts `<execPath> broker-proxy`
      when `name` is requested. */
  function ActivationFile(name: string, execPath: string): string {
    "[D-BUS Service]\nName=" + name + "\nExec=" + execPath + " broker-proxy\n"
  }

  /** The activation file installed for the broker name. */
  function DBusServiceFileContent(execPath: string): string {
    ActivationFile(BrokerEndpoint.BusName, execPath)
  }

  /** An activation file has three lines, the section header, the name and
      the command line naming the executable, each ended by a newline. */
  lemma ActivationFileLines(name: string, execPath: string)
    requires '\n' !in name && '\n' !in execPath
    ensures Split(ActivationFile(name, execPath), '\n')
      == ["[D-BUS Service]", "Name=" + name, "Exec=" + execPath + " broker-proxy", ""]
  {
    var l0 := "[D-BUS Service]";
    var l1 := "Name=" + name;
    var l2 := "Exec=" + execPath + " broker-proxy";
    assert '\n' !in l1 by {
      forall k | 0 <= k < |l1| ensures l1[k] != '\n' {
        if 5 <= k {
          assert l1[k] == name[k - 5];
        }
      }
    }
    assert '\n' !in l2 by {
      forall k | 0 <= k < |l2| ensures l2[k] != '\n' {
        if 5 <= k < 5 + |execPath| {
          assert l2[k] == execPath[k - 5];
        }
      }
    }
    assert ActivationFile(name, execPath) == l0 + "\n" + l1 + "\n" + l2 + "\n";
    SplitLines3(l0, l1, l2);
  }

  /** Three newline-free lines, each ended by a newline, split back into
      those lines and an empty remainder. */
  lemma SplitLines3(a: string, b: string, c: string)
    requires '\n' !in a && '\n' !in b && '\n' !in c
    ensures Split(a + "\n" + b + "\n" + c + "\n", '\n') == [a, b, c, ""]
  {
    SplitJoin([a, b, c, ""], '\n');
    JoinLines3(a, b, c, "\n");
  }

  lemma JoinLines3(a: string, b: string, c: string, sep: string)
    ensures JoinWith([a, b, c, ""], sep) == a + sep + b + sep + c + sep
  {
    var p := [a, b, c, ""];
    assert p[1..] == [b, c, ""];
    assert p[1..][1..] == [c, ""];
    assert p[1..][1..][1..] == [""];
    assert JoinWith([c, ""], sep) == c + sep + "";
    assert JoinWith([b, c, ""], sep) == b + sep + (c + sep + "");
  }

  /** The broker's activation file names the broker bus and runs the given
      executable's broker-proxy subcommand. */
  lemma ServiceFileLines(execPath: string)
    requires '\n' !in execPath
    ensures Split(DBusServiceFileContent(execPath), '\n')
      == ["[D-BUS Service]", "Name=" + BrokerEndpoint.BusName, "Exec=" + execPath + " broker-proxy", ""]
  {
    ActivationFileLines(BrokerEndpoint.BusName, execPath);
  }

  /** The bind mount that exposes the runtime directory as the container
      user's /run/user/<uid>. */
  function RuntimeBindMount(root: string, uid: Int64): (r: (string, string))
    ensures r.0 == RuntimeDir(root)
    ensures HasPrefix(r.1, "/run/user/") && Atoi(r.1[10..]) == Some(uid)
  {
    var container := "/run/user/" + Itoa(uid);
    assert container[10..] == Itoa(uid);
    AtoiItoa(uid);
    (RuntimeDir(root), container)
  }

  /** machinectl arguments that enable lingering for `user` in `machine`. */
  function EnableLingerArgs(machine: string, user: string): (r: seq<string>)
    ensures |r| == 5 && r[0] == "shell" && r[4] == user
    ensures r[1] == "root@" + machine && r[2..4] == ["/bin/loginctl", "enable-linger"]
    ensures HasPrefix(r[1], "root@") && r[1][|"root@"|..] == machine
  {
    ["shell", "root@" + machine, "/bin/loginctl", "enable-linger", user]
  }

  // ---------------------------------------------------------------------
  // Keyring unlock script and its quoting

  /** Replaces every single quote with the four characters `'\''`, which
      close the quoted string, add an escaped quote and reopen it. */
  function Escape(p: string): string {
    ReplaceChar(p, '\'', "'\\''")
  }

  /** Reverses Escape, rejecting text that Escape cannot produce (a quote
      not followed by `\''`). */
  function Unescape(e: string): Option<string>
    decreases |e|
  {
    if |e| == 0 then Some("")
    else if e[0] == '\'' then
      if HasPrefix(e, "'\\''") then
        match Unescape(e[4..])
        case Some(rest) => Some("'" + rest)
        case None => None
      else None
    else
      match Unescape(e[1..])
      case Some(rest) => Some([e[0]] + rest)
      case None => None
  }

  /** Escape loses nothing: Unescape recovers the password. Since
      Unescape rejects any quote that does not open a `'\''` group, this
      also says the escaped text has no other quotes. */
  lemma {:induction false} UnescapeEscape(p: string)
    ensures Unescape(Escape(p)) == Some(p)
    decreases |p|
  {
    if |p| > 0 {
      UnescapeEscape(p[1..]);
      var e := Escape(p);
      if p[0] == '\'' {
        assert e == "'\\''" + Escape(p[1..]);
        assert e[4..] == Escape(p[1..]);
        assert HasPrefix(e, "'\\''");
      } else {
        assert e == [p[0]] + Escape(p[1..]);
        assert e[1..] == Escape(p[1..]);
      }
      assert p == [p[0]] + p[1..];
    }
  }

  /** The characters a POSIX shell treats specially outside quotes. */
  predicate IsShellSpecial(c: char) {
    c == ' ' || c == '\t' || c == '\n' || c == '|' || c == '&' || c == ';' || c == '<'
    || c == '>' || c == '(' || c == ')' || c == '$' || c == '`' || c == '"' || c == '*'
    || c == '?' || c == '[' || c == '#' || c == '~'
  }

  /** The value of one POSIX shell word built from unquoted plain
      characters, backslash escapes and single-quoted strings; None when the
      text is not such a word (an unquoted special character, a trailing
      backslash, an unterminated quote). */
  function Unquoted(w: string): Option<string>
    decreases |w|, 1
  {
    if |w| == 0 then Some("")
    else if w[0] == '\'' then InQuote(w[1..])
    else if w[0] == '\\' then
      if |w| < 2 then None
      else
        match Unquoted(w[2..])
        case Some(rest) => Some([w[1]] + rest)
        case None => None
    else if IsShellSpecial(w[0]) then None
    else
      match Unquoted(w[1..])
      case Some(rest) => Some([w[0]] + rest)
      case None => None
  }

  /** The value of the rest of a word that starts inside single quotes,
      where every character up to the closing quote stands for itself. */
  function InQuote(w: string): Option<string>
    decreases |w|, 0
  {
    if |w| == 0 then None
    else if w[0] == '\'' then Unquoted(w[1..])
    else
      match InQuote(w[1..])
      case Some(rest) => Some([w[0]] + rest)
      case None => None
  }

  lemma {:induction false} InQuoteEscape(p: string)
    ensures InQuote(Escape(p) + "'") == Some(p)
    decreases |p|
  {
    var e := Escape(p) + "'";
    if |p| == 0 {
      assert e == "'";
      assert e[1..] == "";
    } else {
      InQuoteEscape(p[1..]);
      var tail := Escape(p[1..]) + "'";
      if p[0] == '\'' {
        assert e == "'\\''" + tail;
        var w := e[1..];
        assert w == "\\''" + tail;
        assert w[2..] == "'" + tail;
        assert ("'" + tail)[1..] == tail;
        assert Unquoted("'" + tail) == Some(p[1..]);
        assert Unquoted(w) == Some([w[1]] + p[1..]);
      } else {
        assert e == [p[0]] + tail;
        assert e[0] == p[0] && e[0] != '\'';
        assert e[1..] == tail;
      }
      assert p == [p[0]] + p[1..];
    }
  }

  /** Quoting the escaped password yields one shell word whose value is
      the password itself, whatever characters it holds. */
  lemma QuotedPasswordIsOneWord(p: string)
    ensures Unquoted("'" + Escape(p) + "'") == Some(p)
  {
    InQuoteEscape(p);
    var w := "'" + Escape(p) + "'";
    assert w[1..] == Escape(p) + "'";
  }

  const ScriptHead: string := "printf '%s' "
  const ScriptTail: string :=
    " | gnome-keyring-daemon --replace --unlock --components=secrets,pkcs11 && exec sleep infinity"

  /** The shell script that feeds the password to gnome-keyring-daemon and
      then keeps the login session alive. Between the fixed head and tail
      sits a single shell word whose value is the password. */
  function UnlockScript(password: string): (r: string)
    ensures |r| >= |ScriptHead| + |ScriptTail|
    ensures HasPrefix(r, ScriptHead) && r[|r| - |ScriptTail|..] == ScriptTail
    ensures Unquoted(r[|ScriptHead|..|r| - |ScriptTail|]) == Some(password)
  {
    var word := "'" + Escape(password) + "'";
    var r := ScriptHead + word + ScriptTail;
    assert r[|ScriptHead|..|r| - |ScriptTail|] == word;
    assert r[|r| - |ScriptTail|..] == ScriptTail;
    QuotedPasswordIsOneWord(password);
    r
  }

  /** machinectl arguments that log `user` into `machine` and unlock the
      keyring with `password`, passed as the `bash -c` script. */
  function UnlockKeyringArgs(machine: string, user: string, password: string): (r: seq<string>)
    ensures |r| == 6 && r[0] == "shell" && r[1] == user + "@" + machine
    ensures r[2..5] == ["/bin/bash", "--login", "-c"]
    ensures r[5] == UnlockScript(password)
    ensures |r[5]| >= |ScriptHead| + |ScriptTail|
    ensures HasPrefix(r[5], ScriptHead) && r[5][|r[5]| - |ScriptTail|..] == ScriptTail
    ensures Unquoted(r[5][|ScriptHead|..|r[5]| - |ScriptTail|]) == Some(password)
  {
    ["shell", user + "@" + machine, "/bin/bash", "--login", "-c", UnlockScript(password)]
  }

  /** The password the container user is created with. */
  const ContainerPassword: string := "Intuneme2024!"
}
