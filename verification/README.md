# intuneme in Dafny

intuneme runs Microsoft Intune inside a systemd-nspawn container on a Linux
desktop. The host side does two things. It builds and runs the container:
it pulls the image, writes the rootfs fixups, creates the user, boots the
container and hands the host's display and audio sockets to it. It also
runs a broker proxy: a small D-Bus service on the host session bus that
forwards the eight `com.microsoft.identity.Broker1` methods to the broker
inside the container. A GNOME Shell extension shows the container's state
and starts or stops it.

This project models the decision-making core of that system as pure
functions over immutable data. Every effect is replaced by an input:
- each command's success (`ok: nat -> bool`, indexed by the step);
- file contents and write outcomes;
- the environment;
- glob results;
- `PATH` lookups;
- process liveness;
- the D-Bus upstream's reply.

What the model keeps as output is what the program emits: command lines,
file contents, D-Bus calls and view state.

Modules, following the repository's layout:

| module | file | models |
|---|---|---|
| `BrokerEndpoint` | broker_endpoint.dfy | the Broker1 method table, handler→wire-name map, introspection XML |
| `Forwarder` | forwarder.dfy | `forward` and the handler dispatch |
| `BrokerRun` | broker_run.dfy | the startup order of the proxy's `Run` |
| `BrokerSession` | broker_session.dfy | runtime paths, bus address, activation file, linger and keyring argv |
| `PidLease` | pid_lease.dfy | the broker's PID file over an abstract file store |
| `ImageVersion` | image_version.dfy | the semver → image tag choice |
| `Password` | password.dfy | password rules, password file, the three-round prompt |
| `Backup` | backup.dfy | shadow-entry backup/restore, device-broker state copy |
| `Provision` | provision.dfy | image pull, rootfs extraction, `appendLine`, `WriteFixups`, user creation, polkit rule |
| `Puller` | puller.dfy | backend detection and the podman/skopeo/docker command sequences |
| `Prereq` | prereq.dfy | the prerequisite check |
| `Nspawn` | nspawn.dfy | host socket detection, boot/shell argv, machinectl calls |
| `HostSession` | host_session.dfy | session discovery and the container environment |
| `ContainerManager` | container_manager.dfy | the extension's flags, signals, start/stop, polling, terminal choice |
| `QuickToggle` | quick_toggle.dfy | the toggle's view and click handler |
| `StatusReport` | status_report.dfy | the text of `intuneme status` as the extension reads it |
| `StopCommand` | stop_command.dfy | the machine steps of `intuneme stop` and the extension's view of its outcome |

Shared modules:
- `Wrappers` (Option/Result);
- `Text` (Go's `TrimSpace`, `Split`, `Join`, `Cut`, `Contains`);
- `StatusMatch` (the extension's `^Key:\s+(\w+)` line match under the `m` flag);
- `Decimal` (`strconv.Itoa`/`Atoi` for 64-bit ints);
- `Paths` (`filepath.Join`/`Base` on clean paths);
- `Exec` (the runner's command record);
- `Steps` (a fail-fast sequence of commands with per-step cleanup).

## Model

| member | source | states |
|---|---|---|
| BrokerEndpoint.BrokerMethods | internal/broker/proxy.go:79-91 | the broker exposes exactly eight method names, pairwise distinct |
| BrokerEndpoint.ForwardedNamesInOrder | internal/broker/proxy.go:188-218 | the i-th handler forwards the i-th name of the method table |
| BrokerEndpoint.ForwardedNameIsLowerFirst | internal/broker/proxy.go:188-218 | each handler forwards its own Go name with the first letter lowercased |
| BrokerEndpoint.MethodMap | internal/broker/proxy.go:248-257 | every handler has an entry in the export map, and each entry is the name that handler forwards |
| BrokerEndpoint.MethodMapSize | internal/broker/proxy.go:248-257 | the export map has exactly one entry per handler and no other entry |
| BrokerEndpoint.MethodMapDispatch | internal/broker/proxy.go:248-257 | the map's values are the lowercased keys, all lie in the method table, and no two handlers share a wire name (injective) |
| BrokerEndpoint.HandlerIdentInjective | internal/broker/proxy.go:248-257 | distinct handlers are exported under distinct Go names, so the map has no collisions |
| BrokerEndpoint.Broker1Args | internal/broker/proxy.go:25-77 | every method takes three `s` in-arguments, named protocolVersion, correlationID and requestJSON in that order, and returns one `s` out-argument, responseJSON |
| BrokerEndpoint.Broker1Interface | internal/broker/proxy.go:25-77 | the introspected interface declares the table's methods in order, each with exactly that argument list |
| BrokerEndpoint.IntrospectDeclaresEveryMethod | internal/broker/proxy.go:25-77 | the introspection XML contains, for every method of the table, a `<method name="…">` element declaring the four Broker1 arguments |
| BrokerEndpoint.IntrospectDeclaresEveryArg | internal/broker/proxy.go:25-77 | every argument of every method appears as an `<arg>` line inside that method's element of the introspection XML |
| BrokerEndpoint.MethodXmlHoldsArgs | internal/broker/proxy.go:27-32 | a method element opens with its tag and holds the line of each of its arguments |
| Forwarder.StoreString | internal/broker/proxy.go:178-181 | storing a reply value into a string opens every variant around it; a string or object path gives its text, an integer a one-rune string, and nothing else converts |
| Forwarder.RuneString | internal/broker/proxy.go:178-181 | an integer stored into a string becomes the one character with that code when it is a Unicode scalar value, and the replacement character otherwise |
| Forwarder.DecodeReply | internal/broker/proxy.go:175-182 | a reply decodes exactly when its body holds one value and that value converts to a string; the decoded text is that conversion |
| Forwarder.WrappedStringDecodes | internal/broker/proxy.go:175-182 | a one-string reply decodes to that exact string, however many variants carry it |
| Forwarder.IntegerReplyDecodes | internal/broker/proxy.go:175-182 | an integer reply decodes to a single character, equal to its code exactly when the integer is a scalar value |
| Forwarder.Forward | internal/broker/proxy.go:170-183 | one call to the broker's bus name and path with member Interface.method and the three arguments unchanged and in order; success iff the upstream replied with one value that converts to a string, and the converted text is returned; otherwise "" and a generic Failed error |
| Forwarder.ForwardPassesReplyThrough | internal/broker/proxy.go:170-183 | whatever string the container broker replies is exactly what the host caller receives |
| Forwarder.HandlerForwardsItsMappedName | internal/broker/proxy.go:188-218 | each handler calls upstream with the member its map entry names and passes its arguments through |
| Forwarder.Route | internal/broker/proxy.go:248-257 | an incoming member finds the handler whose map value it is, or none when no handler maps to it |
| Forwarder.ProxyIsTransparent | internal/broker/proxy.go:248-257 | a member is served iff it is in the method table, and serving it calls the same member upstream with the same arguments |
| BrokerRun.RunStopsAtFirstFailure | internal/broker/proxy.go:222-271 | when step j is the first to fail, steps 0..j are attempted, nothing after, and the run returns step j's error |
| BrokerRun.RunServesIff | internal/broker/proxy.go:222-278 | the proxy serves iff every startup step succeeds and the name request returns PrimaryOwner |
| BrokerRun.NameTakenEndsRun | internal/broker/proxy.go:265-271 | with DoNotQueue, any reply other than PrimaryOwner is an "already owned" failure after every step ran |
| BrokerRun.RunClosesWhatItOpened | internal/broker/proxy.go:222-278 | on return, exactly the connections opened so far are closed, host before container |
| BrokerSession.BusAddressLayout | internal/broker/session.go:12-20 | for a clean root the runtime dir is root/runtime, the socket root/runtime/bus, and the container bus address "unix:path=" followed by that socket |
| BrokerSession.ServiceFileLines | internal/broker/proxy.go:101-103 | the activation file is exactly the three lines `[D-BUS Service]`, `Name=<bus name>`, `Exec=<path> broker-proxy`, newline-terminated |
| BrokerSession.RuntimeBindMount | internal/broker/session.go:25-27 | the mount pairs the runtime dir with /run/user/ followed by a decimal that parses back to the uid |
| BrokerSession.EnableLingerArgs | internal/broker/session.go:30-35 | five arguments: machinectl shell as root@machine running loginctl enable-linger for the user; the machine reads back as the text after `root@`, and the user as the last argument |
| BrokerSession.UnescapeEscape | internal/broker/session.go:40-41 | the `'` → `'\''` escape is reversible: unescaping gives back the password |
| BrokerSession.QuotedPasswordIsOneWord | internal/broker/session.go:40-45 | the escaped password inside single quotes reads back, under shell quoting rules, as one word equal to the password |
| BrokerSession.UnlockScript | internal/broker/session.go:42-45 | the script is the fixed printf head, then a quoted word that the shell reads as the password, then the fixed gnome-keyring-daemon tail |
| BrokerSession.UnlockKeyringArgs | internal/broker/session.go:39-50 | six arguments: shell, user@machine, /bin/bash --login -c, and the unlock script, which starts with `printf '%s' `, ends by piping into `gnome-keyring-daemon --replace --unlock` and then `exec sleep infinity`, and whose quoted word in between is the password |
| PidLease.WritePidFile | internal/broker/proxy.go:116-118 | a successful write stores a file that parses back to the caller's PID and leaves every other file as it was |
| PidLease.IsRunningByPidFile | internal/broker/proxy.go:122-137 | a missing or unparsable file gives (0, false); otherwise the parsed PID and whether that process exists and answers signal 0 |
| PidLease.WriteThenProbe | internal/broker/proxy.go:116-137 | after writing its own PID file, the probe reports the writer's PID and liveness |
| PidLease.ProbesMadeUnique | internal/broker/proxy.go:154-159 | the number of probes the stop loop makes is determined by the liveness answers |
| PidLease.ProbeUntilGone | internal/broker/proxy.go:154-159 | the loop probes until the process is gone, at most 50 times |
| PidLease.StopByPidFile | internal/broker/proxy.go:141-162 | a missing or unparsable file is left untouched and nothing is signalled; otherwise SIGINT is sent once if the process exists, probing is bounded by 50, and the file is removed whether or not the process exited |
| ImageVersion.SemverCore | internal/version/version.go:10 | a core is three dot-separated ASCII digit runs, and the version is that core with an optional leading "v" |
| ImageVersion.ImageRef | internal/version/version.go:14-20 | the reference is always imageBase: followed by a tag; the tag is "latest" iff the version is not a clean semver, else "v" and the core |
| ImageVersion.IsCoreIff | internal/version/version.go:10 | the hand-written matcher accepts exactly a.b.c with a, b, c non-empty digit runs |
| ImageVersion.ReleasePinsImage | internal/version/version.go:10-20 | x.y.z and vx.y.z both pin the image to tag vx.y.z |
| ImageVersion.SuffixFallsBack | internal/version/version.go:10-20 | a release followed by any suffix that does not start with a digit (-rc1, -dirty, -beta.1, git-describe, a fourth dotted component) falls back to latest |
| ImageVersion.NotCoreWhenLastBad | internal/version/version.go:10 | two digit runs followed by anything other than one digit run (a non-digit, an empty part, or more dots) are not a clean version |
| ImageVersion.NonNumericFallsBack | internal/version/version.go:14-20 | versions such as dev, none, beta or "" give latest |
| Password.Classify | cmd/init.go:125-135 | each character gets at most one class, checked in the order digit, upper, lower, special |
| Password.Scan | cmd/init.go:124-136 | each class flag is set iff some character of the password has that class |
| Password.Violations | cmd/init.go:120-151 | the violated rules, all of them, in the order length, digit, upper, lower, special, username |
| Password.ValidatePassword | cmd/init.go:119-156 | accepted iff every rule holds; a rejection's lines are the fixed header and then one bulleted line per violated rule, in rule order |
| Password.Report | cmd/init.go:151-155 | no error for no violations; otherwise a text that starts with the header and splits on newlines into the header and one bulleted line per violation, in order |
| Password.ReportListsExactlyViolations | cmd/init.go:119-156 | a rejection holds a rule's bulleted line exactly when that rule is violated, so only violated rules are listed |
| Password.ItemInjective | cmd/init.go:121-150 | different rules have different report lines |
| Password.NoViolationIffAcceptable | cmd/init.go:119-155 | no rule is violated iff the password has ≥ 12 characters, a digit, an upper, a lower and a special character, and does not contain the username caselessly |
| Password.EveryViolationReported | cmd/init.go:120-153 | two violated rules are both reported, in rule order, never short-circuited |
| Password.CaselessLetterCountsForNothing | cmd/init.go:125-135 | a letter that is neither upper nor lower case counts for no class |
| Password.AsciiClassifiesEverything | cmd/init.go:125-135 | with ASCII tables every character falls in some class |
| Password.UsernameCheckIgnoresCase | cmd/init.go:149 | usernames equal up to case violate the username rule for the same passwords |
| Password.FirstLineOnly | cmd/init.go:169-170 | the password from a file is the trimmed first line; later lines are ignored |
| Password.SingleLineFile | cmd/init.go:169-170 | a one-line file yields its trimmed content |
| Password.PasswordFromFile | cmd/init.go:163-175 | a read error is reported; otherwise the first-line password is returned iff it passes validation, and a rejection carries exactly the validation message |
| Password.PromptPassword | cmd/init.go:177-202 | at most three rounds; earlier rounds all mismatched; a read error stops; three mismatches fail; the first matching pair is validated and that outcome returned, with its validation message on rejection and no retry |
| Password.ReadPassword | cmd/init.go:162-203 | a password file takes precedence over the prompt (no rounds); without one the prompt's round-by-round outcome is the result; any password returned is acceptable |
| Backup.ShadowEntry | internal/provision/backup.go:60-69 | the entry found is the first non-blank line (after trailing newlines are dropped) whose name before ':' is the user; none iff no line names the user |
| Backup.BackupShadowEntry | internal/provision/backup.go:55-70 | one `sudo cat` of the shadow file; a read error, the line found, or a user-not-found error |
| Backup.TrailingNewlineIgnored | internal/provision/backup.go:60 | a trailing newline on the shadow file changes nothing |
| Backup.MissingUserIsError | internal/provision/backup.go:60-69 | a file that does not name the user gives the not-found error |
| Backup.ReplaceEntry | internal/provision/backup.go:83-95 | the first line naming shadowLine's user is replaced by shadowLine; nothing is found iff no line names that user |
| Backup.RestoreShadowEntry | internal/provision/backup.go:74-97 | one `sudo cat`; on a read error or a missing user nothing is written; otherwise the rejoined lines are what it writes (`toWrite`), and the error is set iff that write fails |
| Backup.RestoreKeepsOtherLines | internal/provision/backup.go:83-97 | restore keeps the line count and order and changes only the first line of the user |
| Backup.BackupRestoreRoundTrip | internal/provision/backup.go:55-97 | for a non-empty user, backing up from the old file and restoring into a new file that has the user makes a later backup return the saved line |
| Backup.BackupDeviceBrokerState | internal/provision/backup.go:20-37 | absent state: "" and no command; a temp-dir error: no command; otherwise exactly one `sudo cp -a` of the broker dir into the temp dir, success iff the copy succeeds, and the temp dir is removed on failure |
| Backup.RestoreDeviceBrokerState | internal/provision/backup.go:42-49 | exactly one `sudo cp -a` from the backup into the rootfs's broker dir; an error iff it fails |
| Backup.RestoreReadsWhatBackupWrote | internal/provision/backup.go:20-49 | the restore copies from the very path the backup copied to, into the same relative path under the new rootfs |
| Provision.PullImageRuns | internal/provision/provision.go:12-18 | one `podman pull image`, an error iff it fails |
| Provision.ExtractSequence | internal/provision/provision.go:20-42 | create, cp, rm; a create failure stops at once; a cp failure still issues the rm before its error |
| Provision.AppendLine | internal/provision/provision.go:150-160 | only the target file changes; after appending (or when already present) the file contains the line; old content is kept as a prefix |
| Provision.AppendLineIdempotent | internal/provision/provision.go:150-160 | appending the same line twice equals appending it once |
| Provision.WriteEtcWrites | internal/provision/provision.go:44-69 | each etc file whose write is reached and succeeds holds its text (/etc/hostname is hostname+"\n", /etc/hosts is "127.0.0.1 <hostname> localhost\n", /etc/environment the fixed text); a file whose write failed or was not reached keeps its old content, and a failed hostname write changes nothing |
| Provision.WriteFixups | internal/provision/provision.go:44-108 | succeeds iff the hostname, hosts, environment and unit files are written |
| Provision.FixupsSucceed | internal/provision/provision.go:44-108 | when the four required writes succeed, those files hold their texts, PAM and keyring changes land where their writes succeed, and the wants link is made when possible |
| Provision.FixupsFail | internal/provision/provision.go:44-108 | the first failing required write is the error; a hostname failure leaves the disk unchanged, a hosts failure leaves only hostname written, an environment failure leaves hostname and hosts written; a unit failure leaves all three files under etc holding their texts; links and the unit file are untouched |
| Provision.RerunEtcFailed | internal/provision/provision.go:44-69 | a run that failed on an etc file fails the same way when rerun and leaves the same files |
| Provision.FixupsIdempotent | internal/provision/provision.go:44-108 | running the fixups twice is running them once |
| Provision.PathsApart | internal/provision/provision.go:44-105 | the seven files the fixups write are pairwise distinct paths |
| Provision.UnitRunsChown | internal/provision/provision.go:83-100 | the unit contains the line ExecStart=/bin/chown -R uid:gid /home/user |
| Provision.HostsLineReadsBack | internal/provision/provision.go:54 | the hosts line splits into 127.0.0.1, the hostname and localhost |
| Provision.UseraddReadsBack | internal/provision/provision.go:111-124 | useradd runs inside the rootfs via systemd-nspawn, with a --uid that parses back to the uid, for the user |
| Provision.CreateContainerUserRuns | internal/provision/provision.go:111-124 | exactly one command; an error iff it fails |
| Provision.RuleAllowsEachAction | internal/provision/provision.go:128-138 | the polkit rule tests every machined action and the group |
| Provision.TeeWrites | internal/provision/provision.go:143 | `sudo tee` writes its standard input to exactly the file operands it can open, and to nothing else |
| Provision.Install | internal/provision/provision.go:139-148 | mkdir (its failure ignored) then tee; the error is "install polkit rule failed" and occurs iff tee does not run or cannot open every operand; the files tee opened are written even when it fails |
| Provision.TeeUnopenableSecond | internal/provision/provision.go:143 | with a second operand too long to be a file name, tee fails, skips that operand, and writes the first iff it can open it |
| Provision.RuleTooLongForName | internal/provision/provision.go:128-137 | the rule text, read as a path, is one component longer than the 255-byte file name limit |
| Provision.AsWrittenLeavesRuleEmpty | internal/provision/provision.go:139-147 | as written, the install fails for every rules directory; the rule reaches no file, and the rules file, when it can be created, is left empty |
| Provision.InstallWritesRule | internal/provision/provision.go:127-148 | the corrected install succeeds iff tee runs and can open the rules file, and then writes exactly the rule there and nothing elsewhere |
| Puller.Detect | internal/puller/puller.go:22-35 | a chosen backend has all its tools on PATH; none gives the "no container tool found" error |
| Puller.DetectFollowsPreference | internal/puller/puller.go:22-35 | the choice is the first available of podman, skopeo+umoci, docker |
| Puller.SkopeoNeedsUmoci | internal/puller/puller.go:26-30 | skopeo without umoci is never chosen |
| Puller.PodmanPullArgs | internal/puller/puller.go:50-54 | pull, then --policy=missing iff the image is under localhost/, then the image |
| Puller.ExportPull | internal/puller/puller.go:42-87 | the podman/docker sequence runs fail-fast, and the tarball is removed iff the export succeeded |
| Puller.ExportStopsEarly | internal/puller/puller.go:55-64 | a pull or create failure stops there, with no cleanup rm |
| Puller.ExportCleansUp | internal/puller/puller.go:66-79 | an export or extract failure issues the cleanup rm before its error |
| Puller.ExportCompletes | internal/puller/puller.go:42-87 | when all steps through extract succeed, the full six-command sequence runs, and only the final rm's result decides the error |
| Puller.PreCleanIgnored | internal/puller/puller.go:43-44 | the pre-clean rm's outcome never matters |
| Puller.SkopeoPull | internal/puller/puller.go:94-116 | a temp-dir failure runs nothing; otherwise the temp dir is always removed |
| Puller.SkopeoSequence | internal/puller/puller.go:102-115 | copy docker://image to oci:tmp:latest, then umoci raw unpack of that same reference; fail-fast |
| Prereq.CheckAll | internal/prereq/prereq.go:21-29 | exactly one error per requirement not on PATH, and none iff all are found |
| Prereq.CheckCases | internal/prereq/prereq.go:14-29 | errors in requirement order: systemd-nspawn, then machinectl |
| Prereq.Message | internal/prereq/prereq.go:25 | the error names the missing binary and the package hint |
| Nspawn.FindXAuthority | internal/nspawn/nspawn.go:24-47 | an existing $XAUTHORITY wins; otherwise the first match of the first pattern that matches; with no match, ~/.Xauthority when the home directory is known and the file exists, and "" otherwise |
| Nspawn.DetectHostSockets | internal/nspawn/nspawn.go:51-75 | a socket mount appears iff its host path exists; the Xauthority mount appears, last, iff one is found; nothing else appears |
| Nspawn.DetectedTargetsDistinct | internal/nspawn/nspawn.go:51-75 | no two detected mounts share a container path |
| Nspawn.BindFlagRoundTrip | internal/nspawn/nspawn.go:86 | a --bind=host:container flag parses back to its mount |
| Nspawn.BuildBootArgs | internal/nspawn/nspawn.go:78-91 | 8 + n arguments: -D rootfs, --machine, home bind, X11 and dri binds, one bind per socket in order, --console=pipe, and -b last |
| Nspawn.ShellTargetNamesUser | internal/nspawn/nspawn.go:94-96 | the shell target is user@machine, naming the user before '@' |
| Nspawn.Boot | internal/nspawn/nspawn.go:99-102 | sudo in the background, with systemd-nspawn prepended to the boot arguments |
| Nspawn.BootBindsDetectedSockets | internal/nspawn/nspawn.go:78-102 | every detected socket is bound in the boot command |
| Nspawn.BootBindsSockets | internal/nspawn/nspawn.go:78-102 | every socket handed to the boot command is bound in it, and `-b` stays the last argument |
| Nspawn.IsRunning | internal/nspawn/nspawn.go:110-113 | `machinectl show m`, true iff it succeeds |
| Nspawn.Stop | internal/nspawn/nspawn.go:122-128 | `machinectl poweroff m`, an error iff it fails, carrying the command's output |
| HostSession.FindXAuthority | internal/session/session.go:65-79 | the first match of the first pattern that matches; otherwise an error listing every searched path |
| HostSession.MessageListsEverySearch | internal/session/session.go:75-78 | the error text lists each searched path on its own line |
| HostSession.Discover | internal/session/session.go:28-63 | an empty DISPLAY fails first; set values are copied; empty runtime dir and bus address get their defaults; with XAUTHORITY unset the search decides: the session is found iff the search finds a file, and otherwise fails with the search's own error |
| HostSession.ContainerXAuthorityKeepsName | internal/session/session.go:83-86 | the container path lies under /run/user-external/uid/ and keeps the file's base name |
| HostSession.ContainerEnv | internal/session/session.go:89-101 | four settings, plus WAYLAND_DISPLAY iff it is set |
| HostSession.ContainerEnvReadsBack | internal/session/session.go:89-101 | the settings read back, in order, as runtime dir, bus address on it, display, container Xauthority, and wayland display when set |
| ContainerManager.Set | cmd/extension/containerManager.js:90-109 | the property takes the value, the others keep theirs, and a notification goes out iff the value changed |
| ContainerManager.SetIdempotent | cmd/extension/containerManager.js:90-109 | setting the same value again changes and announces nothing |
| ContainerManager.OnMachineNew | cmd/extension/containerManager.js:124-130 | for intuneme: running, not transitioning, broker unchanged; other names change nothing |
| ContainerManager.OnMachineRemoved | cmd/extension/containerManager.js:139-146 | for intuneme all three flags drop; other names change nothing |
| ContainerManager.StartRequested | cmd/extension/containerManager.js:186-191 | a no-op while running or transitioning; otherwise transitioning and `pkexec intuneme start` |
| ContainerManager.StopRequested | cmd/extension/containerManager.js:204-209 | a no-op unless running and settled; otherwise transitioning and `intuneme stop` |
| ContainerManager.CommandFinished | cmd/extension/containerManager.js:192-198 | success changes nothing; failure ends the transition and polls |
| ContainerManager.StartThenMachineNew | cmd/extension/containerManager.js:186-199 | a successful start ends running and settled, with three notifications |
| ContainerManager.StopThenMachineRemoved | cmd/extension/containerManager.js:204-216 | a successful stop ends with every flag down |
| ContainerManager.FailedRequestRestores | cmd/extension/containerManager.js:186-216 | a failed start or stop restores the flags to before the request and asks for a poll |
| ContainerManager.PollStatus | cmd/extension/containerManager.js:167-181 | a failed command changes nothing; a Container line sets running only when settled; the broker flag is true iff a "Broker proxy: running" line exists |
| ContainerManager.PollIdempotent | cmd/extension/containerManager.js:167-181 | polling twice on the same output is polling once |
| ContainerManager.FindTerminal | cmd/extension/containerManager.js:34-44 | $TERMINAL if set and on PATH; otherwise the first known terminal on PATH; none iff neither exists |
| ContainerManager.OpenShell | cmd/extension/containerManager.js:221-238 | a terminal is launched iff one is found, with `-- intuneme shell` |
| StatusMatch.Search | cmd/extension/containerManager.js:172 | a match exists iff some line starts with the key followed by white space and a word; the value is that word on the first such line |
| StatusMatch.SearchLines | cmd/extension/containerManager.js:172-180 | on newline-joined lines, the search finds the word of the first line that starts with the key |
| QuickToggle.Sync | cmd/extension/quickToggle.js:74-105 | checked iff running, reactive iff settled, shell item iff running and settled; error shows "Error"; the container label repeats the subtitle; the broker label says Running iff the broker runs |
| QuickToggle.SyncReadsBack | cmd/extension/quickToggle.js:84-97 | the subtitle determines whether there is an error and otherwise the running and transitioning flags |
| QuickToggle.StateWordsDiffer | cmd/extension/quickToggle.js:84-89 | two states with the same subtitle agree on running and transitioning |
| QuickToggle.Click | cmd/extension/quickToggle.js:60-68 | ignored while transitioning; otherwise stop when running and start when not |
| QuickToggle.ClickShowsChange | cmd/extension/quickToggle.js:60-105 | a click acts iff the toggle is reactive, and the next view shows Stopping…/Starting…, unclickable |
| QuickToggle.ClickThenSignal | cmd/extension/quickToggle.js:60-105 | a click followed by machined's signal shows the opposite state, clickable again |
| StatusReport.StatusLinesAsWritten | cmd/status.go:29-43 | two lines when uninitialized, four when initialized |
| StatusReport.PollAsWritten | cmd/status.go:35-43 | polling the status as printed always clears the broker flag and reads the container's state |
| StatusReport.StatusLines | cmd/status.go:29-43 | the printed lines plus a final "Broker proxy:" line when initialized |
| StatusReport.SearchCorrected | cmd/status.go:35-43 | the extension's search finds both the container's and the broker's word |
| StatusReport.StatusShowsProbe | cmd/status.go:39-43 | the status says the container is running exactly when `machinectl show` succeeds, and a poll outside a transition sets the container flag to that outcome |
| StopCommand.StopMachine | cmd/stop.go:29-46 | the machine is always probed first, powered off only when registered; the stop fails only when a registered machine's poweroff fails, and the error carries poweroff's output |
| StopCommand.ExtensionStopOutcome | cmd/extension/containerManager.js:204-209 | the extension's stop runs `intuneme stop`; success leaves the transition open for machined's signal, failure closes it with the container still shown running and polls |
| StatusReport.PollReadsReport | cmd/extension/containerManager.js:167-181 | polling the corrected status sets the broker flag iff the broker runs and reads the container when settled |
| Steps.RunSteps | internal/puller/puller.go:55-86 | a fail-fast sequence issues commands up to and including the first failing critical step, then that step's cleanup, and returns its error |
| Steps.FirstStopAgrees | internal/puller/puller.go:43-44 | outcomes of non-critical steps never change where the sequence stops |
| Decimal.AtoiItoa | internal/broker/proxy.go:117-129 | a 64-bit PID printed in decimal parses back to itself |
| Text.SplitJoin | internal/provision/backup.go:83-97 | splitting on a separator and rejoining gives back the text |
| Paths.BaseOfJoined | internal/session/session.go:83-86 | the base name of dir/name is name |

## Left out

- Real D-Bus: connecting, auth, Hello, export by reflection, RequestName on the wire and blocking until the context ends are replaced by per-step outcome oracles. Concurrent handler dispatch is not modelled.
- Processes and time: `os.FindProcess`, signal delivery and the 100 ms / 5 s sleeps are liveness oracles. Only the 50-probe bound is kept.
- The filesystem, exec and sudo: every runner call is a command record plus an outcome oracle. File modes, `MkdirAll` and the temp-dir name pattern are not modelled. `sudoWriteFile`, called from internal/provision/backup.go:97, is not part of this model; its outcome is an input.
- Go library semantics: `unicode.IsDigit`/`IsUpper`/`IsLower`/`IsLetter` and `strings.ToLower` are a table passed in (`CharTables`), with an ASCII instance. `filepath.Join` cleaning is not modelled: paths are concatenated with "/". RE2 is replaced by a hand-written semver matcher, and JavaScript's regex by `StatusMatch`.
- Wrapped error text (`fmt.Errorf("…: %w")`): errors are datatypes carrying their cause, not strings. The two exceptions are the password report and the prerequisite messages, whose text is the contract.
- `DBusServiceFilePath`: it reads `os.UserHomeDir` and is plain path joining.
- `ContainerPassword`, `ValidateSudo` and `Shell`: these are constant command lines with no decision in them. They are defined but carry no separate contract.
- Provision.Install: tee's option parsing is reduced to "an operand starting with '-' is not a file". Of the reasons tee cannot open a file, only the 255-byte limit on each path component (`ENAMETOOLONG`, measured as UTF-8 bytes) is spelled out; the others (a missing directory, permissions, the 4096-byte path limit) are the `creatable` oracle. A write error after a successful open is not modelled.
- ContainerManager: not modelled are `POLL_INTERVAL_SECONDS`, timers, the D-Bus signal subscription, `destroy()`, console logging, and the exception path of `Gio.Subprocess.new`. The exception path makes `execCommand` return ok=false, which the `!ok` cases cover.
- QuickToggle.Sync: `error` is a parameter. ContainerManager defines no `error` property (cmd/extension/containerManager.js:46-64), so in the extension as written it is always undefined, and the view behaves as `Sync(m, false)`. The initial "Broker Proxy: Unknown" label is replaced by the first sync and is not modelled.
- The CLI plumbing (cmd/*.go other than the password code in cmd/init.go, the status text of cmd/status.go and the machine steps of cmd/stop.go), `internal/config` and extension.js are wiring and are not modelled.
- Some tests target signatures the source does not have:
  - a two-argument `ContainerBusAddress`;
  - session-based nspawn argv builders;
  - `findGroupGID`, and a runner-based `WriteFixups`;
  - a `BrokerProxy` config field.

  The model follows the source.
- Provision.WriteFixups: a write that fails is modelled as leaving its file as it was. `os.WriteFile` truncates before it writes, so a write that fails midway can leave the file truncated; that state is not modelled.
- StopCommand.StopMachine: the broker-proxy shutdown that `intuneme stop` runs between the probe and the poweroff when the broker proxy is enabled (cmd/stop.go:35-39) is `PidLease.StopByPidFile` and is not repeated here. The printed progress lines are not modelled.
- Forwarder.StoreString: the conversions follow the bus library's rules for storing into a string: variants are opened, and values convert as Go's reflection converts them. The library is not part of this model, and only conversion into a string is modelled.
- Nspawn.ParseBindFlag: it reads only the host:container split that `BindFlag` writes. systemd-nspawn's `:options` suffix and `\:` escapes are not modelled.
- PidLease.IsRunningByPidFile and PidLease.StopByPidFile: a PID file that exists but cannot be read is modelled as missing. A file that does not hold a number is handled as its own case. Both give the same outcome as a missing file: (0, false), or no signal and the file left alone.
- Nspawn.FindXAuthority: the glob result order is the oracle's. Go's `filepath.Glob` sorts its matches; that order is not modelled.

## Findings

| source | as written | input that shows it | evidently intended | confidence | as-written member | corrected member |
|---|---|---|---|---|---|---|
| internal/provision/provision.go:139-147 | `sudo tee <rules-path> <rule-text>` passes the rule as a second file operand and gives tee no stdin, so tee creates 50-intuneme.rules empty (when the directory can be written), cannot open the 438-byte rule text as a file (over the 255-byte name limit) and exits 1; `InstallPolkitRule` returns "install polkit rule failed" and init prints "warning: polkit install failed" (cmd/init.go:100-101) | any rulesDir | the rule text on tee's stdin, so that 50-intuneme.rules holds the rule | not executed; high (tee semantics) | Provision.AsWrittenLeavesRuleEmpty | Provision.InstallWritesRule |
| cmd/status.go:35-43 | `intuneme status` prints no "Broker proxy:" line, so the extension's poll (containerManager.js:179-180) always sets brokerRunning to false | initialized root, container and broker both running: the toggle shows "Broker Proxy: Stopped" after every poll | status prints "Broker proxy: running/stopped", as the extension expects | not executed; medium. cmd/status.go imports `github.com/frostyard/intune/...` (cmd/status.go:7-9), while cmd/init.go imports `github.com/frostyard/intuneme/...` and internal/provision/provision.go imports `github.com/bjk/intuneme/...`, so this status.go may come from a different revision than the rest | StatusReport.PollAsWritten | StatusReport.PollReadsReport |
