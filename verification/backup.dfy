/** Carrying enrollment state across a re-provisioning
    (internal/provision/backup.go): the user's line of the shadow file, and
    the device broker's state directory, copied out of the old root
    filesystem and back into the new one. Command outcomes, the shadow
    file's contents and the existence of the broker directory are inputs;
    the commands issued are the observable output. */
module Backup {
  import opened Wrappers
  import opened Text
  import opened Paths
  import opened Exec

  const DeviceBrokerRelPath: string := "var/lib/microsoft-identity-device-broker"
  const DeviceBrokerDirName: string := "microsoft-identity-device-broker"

  datatype BackupError =
    | ReadShadowFailed(reason: string)
    | UserNotInShadow(username: string)
    | UserNotInNewShadow(username: string)
    | WriteShadowFailed
    | TempDirFailed(reason: string)
    | BrokerBackupFailed
    | BrokerRestoreFailed

  function ShadowPath(rootfs: string): string {
    Join(Join(rootfs, "etc"), "shadow")
  }

  /** The command that reads the shadow file. */
  function CatShadow(rootfs: string): Command {
    Run("sudo", ["cat", ShadowPath(rootfs)])
  }

  /** The user a shadow line belongs to: the text before its first ':'. */
  function LineUser(line: string): string {
    Before(line, ':')
  }

  /** `line` is taken as the user's line: it names the user and, when
      blank lines are skipped, is not blank. */
  predicate Matches(line: string, username: string, skipBlank: bool) {
    (!skipBlank || line != "") && LineUser(line) == username
  }

  /** The index of the first line taken as the user's. */
  function FirstLineOf(lines: seq<string>, username: string, skipBlank: bool): (r: Option<nat>)
    ensures r.Some? ==> r.value < |lines| && Matches(lines[r.value], username, skipBlank)
    ensures r.Some? ==> forall j :: 0 <= j < r.value ==> !Matches(lines[j], username, skipBlank)
    ensures r.None? ==> forall j :: 0 <= j < |lines| ==> !Matches(lines[j], username, skipBlank)
    decreases |lines|
  {
    if |lines| == 0 then None
    else if Matches(lines[0], username, skipBlank) then Some(0)
    else match FirstLineOf(lines[1..], username, skipBlank)
      case None => None
      case Some(i) => Some(i + 1)
  }

  /** A matching line with none before it is the first. */
  lemma FirstLineAt(lines: seq<string>, username: string, skipBlank: bool, i: nat)
    requires i < |lines| && Matches(lines[i], username, skipBlank)
    requires forall j :: 0 <= j < i ==> !Matches(lines[j], username, skipBlank)
    ensures FirstLineOf(lines, username, skipBlank) == Some(i)
  {
    var r := FirstLineOf(lines, username, skipBlank);
    assert r.Some?;
    assert r.value <= i;
  }

  /** The first match depends only on the lines up to and including it. */
  lemma FirstLineOfPrefix(lines: seq<string>, more: seq<string>, username: string, skipBlank: bool, i: nat)
    requires FirstLineOf(lines, username, skipBlank) == Some(i)
    requires |more| > i && more[..i + 1] == lines[..i + 1]
    ensures FirstLineOf(more, username, skipBlank) == Some(i)
  {
    assert more[i] == lines[..i + 1][i];
    forall j | 0 <= j < i ensures !Matches(more[j], username, skipBlank) {
      assert more[j] == more[..i + 1][j];
    }
    FirstLineAt(more, username, skipBlank, i);
  }

  /** A line that records `username`; blank lines never do. */
  predicate IsEntryFor(line: string, username: string) {
    Matches(line, username, true)
  }

  /** The lines the backup searches: the file without its trailing
      newlines, split at every newline. */
  function BackupLines(data: string): seq<string> {
    Split(TrimRightLF(data), '\n')
  }

  /** The shadow line of `username` in the file's contents, if any. */
  function ShadowEntry(data: string, username: string): (r: Option<string>)
    ensures r.Some? ==> IsEntryFor(r.value, username) && '\n' !in r.value
    ensures r.Some? <==> exists i :: 0 <= i < |BackupLines(data)| && IsEntryFor(BackupLines(data)[i], username)
    ensures r.Some? ==> exists i :: (0 <= i < |BackupLines(data)| && BackupLines(data)[i] == r.value
      && forall j :: 0 <= j < i ==> !IsEntryFor(BackupLines(data)[j], username))
  {
    var lines := BackupLines(data);
    match FirstLineOf(lines, username, true)
    case None => None
    case Some(i) => Some(lines[i])
  }

  /** The outcome of an operation that runs commands: the commands issued,
      in order, and the result. */
  datatype Ran<T> = Ran(commands: seq<Command>, result: Result<T, BackupError>)

  /** `BackupShadowEntry`: reads the shadow file with `sudo cat` and returns
      the user's line. */
  function BackupShadowEntry(rootfs: string, username: string, read: Result<string, string>): (r: Ran<string>)
    ensures r.commands == [CatShadow(rootfs)]
    ensures read.Err? ==> r.result == Err(ReadShadowFailed(read.error))
    ensures read.Ok? ==> match ShadowEntry(read.value, username)
      case Some(line) => r.result == Ok(line)
      case None => r.result == Err(UserNotInShadow(username))
  {
    var cmds := [CatShadow(rootfs)];
    match read
    case Err(reason) => Ran(cmds, Err(ReadShadowFailed(reason)))
    case Ok(data) =>
      match ShadowEntry(data, username)
      case Some(line) => Ran(cmds, Ok(line))
      case None => Ran(cmds, Err(UserNotInShadow(username)))
  }

  /** Trailing newlines make no difference to the backup. */
  lemma TrailingNewlineIgnored(data: string, username: string)
    ensures ShadowEntry(data + "\n", username) == ShadowEntry(data, username)
  {
    assert TrimRightLF(data + "\n") == TrimRightLF(data) by {
      assert (data + "\n")[..|data|] == data;
    }
  }

  /** A missing user is an error, never an empty line. */
  lemma MissingUserIsError(rootfs: string, username: string, data: string)
    requires forall i :: 0 <= i < |BackupLines(data)| ==> LineUser(BackupLines(data)[i]) != username
    ensures BackupShadowEntry(rootfs, username, Ok(data)).result == Err(UserNotInShadow(username))
  {
  }

  /** What a shadow restore did: the contents it tries to write to the
      shadow file, if it gets that far, and the error, if any. A write
      that fails leaves `toWrite` set and `err` is then
      `WriteShadowFailed`. */
  datatype ShadowRestore = ShadowRestore(commands: seq<Command>, toWrite: Option<string>, err: Option<BackupError>)

  /** The line of the restored file: the first line naming the user
      replaced by the saved line, every other line kept. */
  function ReplaceEntry(lines: seq<string>, shadowLine: string): (r: Option<seq<string>>)
    ensures var i := FirstLineOf(lines, LineUser(shadowLine), false);
      (r.Some? <==> i.Some?) && (r.Some? ==> r.value == lines[i.value := shadowLine])
  {
    match FirstLineOf(lines, LineUser(shadowLine), false)
    case None => None
    case Some(i) => Some(lines[i := shadowLine])
  }

  /** `RestoreShadowEntry`: reads the new shadow file, replaces the line
      of the user the saved line belongs to, and writes the file back;
      nothing is written when the user has no line. The write itself
      succeeds when `writeOk`. */
  function RestoreShadowEntry(rootfs: string, shadowLine: string, read: Result<string, string>, writeOk: bool): (r: ShadowRestore)
    ensures r.commands == [CatShadow(rootfs)]
    ensures read.Err? ==> r.toWrite.None? && r.err == Some(ReadShadowFailed(read.error))
    ensures read.Ok? ==> var lines := Split(read.value, '\n');
      match ReplaceEntry(lines, shadowLine)
      case None => r.toWrite.None? && r.err == Some(UserNotInNewShadow(LineUser(shadowLine)))
      case Some(updated) =>
        r.toWrite == Some(JoinWith(updated, "\n")) && (r.err.None? <==> writeOk)
  {
    var cmds := [CatShadow(rootfs)];
    match read
    case Err(reason) => ShadowRestore(cmds, None, Some(ReadShadowFailed(reason)))
    case Ok(data) =>
      match ReplaceEntry(Split(data, '\n'), shadowLine)
      case None => ShadowRestore(cmds, None, Some(UserNotInNewShadow(LineUser(shadowLine))))
      case Some(updated) =>
        ShadowRestore(cmds, Some(JoinWith(updated, "\n")), if writeOk then None else Some(WriteShadowFailed))
  }

  /** The restored file has the same lines as before, in the same order,
      except that the user's first line is now the saved one. */
  lemma RestoreKeepsOtherLines(rootfs: string, shadowLine: string, data: string, writeOk: bool)
    requires '\n' !in shadowLine
    requires RestoreShadowEntry(rootfs, shadowLine, Ok(data), writeOk).toWrite.Some?
    ensures var lines := Split(data, '\n');
      var out := Split(RestoreShadowEntry(rootfs, shadowLine, Ok(data), writeOk).toWrite.value, '\n');
      |out| == |lines|
      && exists i :: (0 <= i < |lines| && LineUser(lines[i]) == LineUser(shadowLine) && out[i] == shadowLine
        && (forall j :: 0 <= j < i ==> LineUser(lines[j]) != LineUser(shadowLine))
        && (forall j :: 0 <= j < |lines| && j != i ==> out[j] == lines[j]))
  {
    var lines := Split(data, '\n');
    var i := FirstLineOf(lines, LineUser(shadowLine), false).value;
    var updated := lines[i := shadowLine];
    SplitJoin(updated, '\n');
  }

  /** Saving a user's line from one shadow file and restoring it into
      another that has a line for the same user, then saving again, gives
      back the saved line. */
  lemma BackupRestoreRoundTrip(rootfs: string, username: string, oldData: string, newData: string, writeOk: bool)
    requires username != ""
    requires ShadowEntry(oldData, username).Some?
    requires exists j :: 0 <= j < |Split(newData, '\n')| && LineUser(Split(newData, '\n')[j]) == username
    ensures var saved := ShadowEntry(oldData, username).value;
      var restored := RestoreShadowEntry(rootfs, saved, Ok(newData), writeOk);
      restored.toWrite.Some? && ShadowEntry(restored.toWrite.value, username) == Some(saved)
  {
    var saved := ShadowEntry(oldData, username).value;
    var lines := Split(newData, '\n');
    var found := FirstLineOf(lines, username, false);
    assert found.Some? by {
      var j :| 0 <= j < |lines| && LineUser(lines[j]) == username;
      assert Matches(lines[j], username, false);
    }
    ReinsertedLineFound(lines, found.value, saved, username);
  }

  /** A non-blank line for `username` put in place of the user's first line
      is what a backup of the joined lines finds. */
  lemma ReinsertedLineFound(lines: seq<string>, i: nat, saved: string, username: string)
    requires username != "" && Matches(saved, username, true) && '\n' !in saved
    requires forall k :: 0 <= k < |lines| ==> '\n' !in lines[k]
    requires FirstLineOf(lines, username, false) == Some(i)
    ensures ShadowEntry(JoinWith(lines[i := saved], "\n"), username) == Some(saved)
  {
    var updated := lines[i := saved];
    var searched := BackupLines(JoinWith(updated, "\n"));
    SavedLineLeads(updated, i);
    forall j | 0 <= j < i ensures !Matches(updated[j], username, true) {
      assert !Matches(lines[j], username, false);
    }
    FirstLineAt(updated, username, true, i);
    FirstLineOfPrefix(updated, searched, username, true, i);
    assert searched[i] == saved by {
      assert searched[i] == searched[..i + 1][i];
    }
  }

  /** Dropping the trailing newlines of joined lines keeps every line up to
      any non-empty one. */
  lemma SavedLineLeads(lines: seq<string>, i: nat)
    requires i < |lines| && lines[i] != ""
    requires forall k :: 0 <= k < |lines| ==> '\n' !in lines[k]
    ensures var searched := BackupLines(JoinWith(lines, "\n"));
      |searched| > i && searched[..i + 1] == lines[..i + 1]
  {
    var head := lines[..i + 1];
    var a := JoinWith(head, "\n");
    var tail := JoinedRest(lines, i);
    LastPieceEnds(head, "\n");
    TrimRightLFAfter(a, tail);
    SplitJoin(head, '\n');
    SplitKeepsHead(a, TrimRightLF(tail), head);
  }

  /** The joined lines are the join of the first `i + 1` of them followed
      by text that is empty or starts with a newline. */
  lemma JoinedRest(lines: seq<string>, i: nat) returns (tail: string)
    requires i < |lines|
    ensures JoinWith(lines, "\n") == JoinWith(lines[..i + 1], "\n") + tail
    ensures tail == "" || tail[0] == '\n'
    ensures TrimRightLF(tail) == "" || TrimRightLF(tail)[0] == '\n'
  {
    if i + 1 < |lines| {
      JoinWithSplitAt(lines, i + 1, "\n");
      tail := "\n" + JoinWith(lines[i + 1..], "\n");
    } else {
      assert lines[..i + 1] == lines;
      tail := "";
    }
    var t := TrimRightLF(tail);
    assert t == tail[..|t|];
  }

  /** Text after a complete line that is empty or starts a new line keeps
      the split of everything before it. */
  lemma SplitKeepsHead(a: string, t: string, head: seq<string>)
    requires Split(a, '\n') == head
    requires t == "" || t[0] == '\n'
    ensures |Split(a + t, '\n')| >= |head| && Split(a + t, '\n')[..|head|] == head
  {
    if t == "" {
      assert a + t == a;
    } else {
      assert a + t == a + "\n" + t[1..];
      SplitAppend(a, t[1..], '\n');
    }
  }

  /** A join of pieces ends with the last piece. */
  lemma LastPieceEnds(pieces: seq<string>, sep: string)
    requires |pieces| > 0 && pieces[|pieces| - 1] != ""
    ensures var s := JoinWith(pieces, sep);
      |s| > 0 && s[|s| - 1] == pieces[|pieces| - 1][|pieces[|pieces| - 1]| - 1]
  {
    var n := |pieces|;
    if n > 1 {
      JoinWithSplitAt(pieces, n - 1, sep);
      assert pieces[n - 1..] == [pieces[n - 1]];
    }
  }

  // ---------------------------------------------------------------------
  // Device broker state

  /** What `os.Stat` reports for the broker directory: it exists, it does
      not exist, or the check failed some other way. */
  datatype StatResult = Exists | NotExist | StatFailed

  function BrokerDir(rootfs: string): string {
    Join(rootfs, DeviceBrokerRelPath)
  }

  /** What a backup of the broker state did: the commands issued, the
      temporary directory removed after a failed copy, and the result. */
  datatype BrokerBackup = BrokerBackup(commands: seq<Command>, removed: Option<string>, result: Result<string, BackupError>)

  /** `BackupDeviceBrokerState`. Only a directory known not to exist is
      skipped, with an empty path; otherwise the state is copied into a fresh
      temporary directory (`mkTemp` is the outcome of creating it), which
      is removed again when the copy (succeeding when `copyOk`) fails. */
  function BackupDeviceBrokerState(rootfs: string, stat: StatResult, mkTemp: Result<string, string>, copyOk: bool): (r: BrokerBackup)
    ensures stat == NotExist ==> r == BrokerBackup([], None, Ok(""))
    ensures stat != NotExist && mkTemp.Err? ==> r == BrokerBackup([], None, Err(TempDirFailed(mkTemp.error)))
    ensures stat != NotExist && mkTemp.Ok? ==>
      r.commands == [Run("sudo", ["cp", "-a", BrokerDir(rootfs), Join(mkTemp.value, DeviceBrokerDirName)])]
      && (r.result.Ok? <==> copyOk)
      && (copyOk ==> r.result.value == mkTemp.value && r.removed.None?)
      && (!copyOk ==> r.removed == Some(mkTemp.value) && r.result == Err(BrokerBackupFailed))
  {
    if stat == NotExist then BrokerBackup([], None, Ok(""))
    else
      match mkTemp
      case Err(reason) => BrokerBackup([], None, Err(TempDirFailed(reason)))
      case Ok(tmp) =>
        var cmd := Run("sudo", ["cp", "-a", BrokerDir(rootfs), Join(tmp, DeviceBrokerDirName)]);
        if copyOk then BrokerBackup([cmd], None, Ok(tmp))
        else BrokerBackup([cmd], Some(tmp), Err(BrokerBackupFailed))
  }

  /** `RestoreDeviceBrokerState`: one `sudo cp -a` from the backup into the
      new root filesystem. */
  function RestoreDeviceBrokerState(rootfs: string, backupDir: string, copyOk: bool): (r: Ran<()>)
    ensures r.commands == [Run("sudo", ["cp", "-a", Join(backupDir, DeviceBrokerDirName), BrokerDir(rootfs)])]
    ensures r.result.Ok? <==> copyOk
    ensures r.result.Err? ==> r.result.error == BrokerRestoreFailed
  {
    var cmd := Run("sudo", ["cp", "-a", Join(backupDir, DeviceBrokerDirName), BrokerDir(rootfs)]);
    Ran([cmd], if copyOk then Ok(()) else Err(BrokerRestoreFailed))
  }

  /** Restoring from a successful backup copies back exactly what the
      backup saved: the restore's source is the backup's destination, and
      its destination is the same place in the new root filesystem. */
  lemma RestoreReadsWhatBackupWrote(oldRoot: string, newRoot: string, mkTemp: Result<string, string>, ok: bool, ok': bool)
    requires var b := BackupDeviceBrokerState(oldRoot, Exists, mkTemp, ok); b.result.Ok?
    ensures var b := BackupDeviceBrokerState(oldRoot, Exists, mkTemp, ok);
      var r := RestoreDeviceBrokerState(newRoot, b.result.value, ok');
      r.commands[0].args[2] == b.commands[0].args[3]
      && r.commands[0].args[3] == Join(newRoot, DeviceBrokerRelPath)
      && b.commands[0].args[2] == Join(oldRoot, DeviceBrokerRelPath)
  {
  }
}
