# Verified model of the agent credential bridge

The bridge installs a macOS helper for one disposable run, removes it again, and brokers HTTP credentials for
agents. This project models the parts whose correctness is hard to see from one function at a time, and proves
what holds over every run:

* the native macOS lifecycle: a directory account, two published files and a launchd job, installed and removed
  against a machine that may answer anything and may be changed by others between any two calls;
* the adapters below it: `dscl` and `launchctl` commands, and the scanners and parsers for their output;
* the approval exchange that must come first: challenge, receipt, deadlines, replay cache;
* the JavaScript side: percent-aware redaction, the broker's request handler, the supervisor of the proxy runtime,
  and the binary frame codec.

Verify with `dafny verify dfyconfig.toml`.

## How it is modelled

`Host.dfy` is the machine, a class with one method for each callback and system call. Its `world` holds the slots this
process may write: the fixed account, job and Mach name, the claimed directory entries, the inodes behind them and the
descriptors it keeps open. Its `rest` is everything else the code can see: all other accounts, the parents'
attributes, inode numbers in use. The calls accept claimed names only, so whoever calls them shows, on every host,
that nothing else is ever touched. Each call first lets some other writer act (`Interfere`) and then answers freely;
inodes behind open descriptors stay alive. Regimes take parts of that freedom away and appear as antecedents of the
theorems:

* `exclusive`: nobody else writes the claimed slots and the inodes behind them; all else may change at any time. This
  is what conservation, publication and every "removed whatever becomes of the others" clause assume;
* `quiet`: nobody else writes at all. Only theorems that say a run completes, or that a number or UUID is free in the
  end, need it;
* `truthful`: probes and reads may fail but do not lie;
* `sturdyLooks`: the calls a removal needs do not fail (`fstat`, `fstatat`, `unlinkat`, `fsync` of a folder), while
  creating, writing, reading, owner, mode and `fsync` of the file may still fail at any point. Every promise that files
  are removed needs no more than this; `sturdyFiles` (no file call fails) is left for publications that succeed;
* `obligingDirectory` and `obligingLaunchd`: callbacks do what they are asked. `balkingDirectory` and `balkingLaunchd`
  answer "ambiguous" instead, for the traces below.

What this process has changed in files and folders and not synced since is kept beside the world (`unsynced`).

A ghost log records every call, commands with what came back from them, and marks for what the code itself concluded. `Discipline.dfy` says over whole logs which
earlier events each call needs (`Safe`) and in which order a run may act (`InOrder`: the binding of the artifacts is
one of the steps); a monitor checks both step by step and is proved exact.

Destructive calls act on whatever their slot holds by then, and somebody else may have come between the last look and
the call. What they found is in the log, with the mark `sure`: nobody wrote the slot since the last look, and that
look did not lie. The licence of a sure deletion demands that it hit the complete recorded account, that of a sure
stop or bootout a job with the recorded program and user, that of a sure removal the inode this process had created;
the owners' own read-backs are what proves it. Between that last look and the call no check of this code can exclude
a race, and nothing is claimed there.

The C code updates records in place, so do the classes here (`OwnedFile`, `OwnedAccount`, `OwnedJob`,
`NativeWiring`, `NameScanner`, `NonceRing`, `RuntimeSupervisor`, `FrameStream`, `Exchange`). Loops stay loops and are
proved against recursive or quantified specifications over the whole input. Sizes, time-outs and magic numbers are
those of the source; unsigned negation in `strtoul`, two's complement process numbers and both byte orders are
written out.

## Where the code and its documents or intentions differ

* `docs/phase5h29-macos-launchd-job-soft-ownership.md` says an ambiguous bootstrap is never adopted. The code keeps
  `prepared` after one, so a caller may bootstrap again and own the job. `JobOwnership.AdoptedAfterAmbiguity` is such a
  run. `JobOwnership.LimboRun` proves that the second bootstrap call is the only way: without one nothing is done to
  the job until both of its names were seen absent; with one, `JobOwnership.AdoptedFromLimbo` adopts from every such
  state. The controller calls bootstrap once, so whole runs are not affected.
* Reading a loaded job back compares label, program and user only, because `launchctl print` shows no more: digests,
  Mach name and start policy of the loaded job are not seen. `Wiring.ReadBackIsPartial` is the exact condition. The
  gate makes up for the digests by verifying the files.
* The report's account flag says that no create which answered OK is left without its record seen gone. After a
  create that took effect but answered "ambiguous" the flag is true and the record is still there
  (`Lifecycle.RunChecked` under `balkingDirectory`); the final look sees it and the report calls for manual recovery.
* `docs/phase5h33-macos-launchctl-job-adapter.md` speaks of one canonical PID. Signs, blanks and leading zeros are
  accepted too: `LaunchctlText.PidNotCanonical`; `LaunchctlText.CanonicalPid` says exactly when the text is canonical.
* `dscl` output is read with `strtoul`, so an account number has accepted forms with a plus sign, leading zeros, or
  from far below zero: `DirectoryText.NegativeForm`. `DirectoryText.UidForm` lists all forms,
  `DirectoryText.CanonicalUid` says exactly which one is what printing the number gives.
* The account layer accepts two shells, the `dscl` adapter one of them: a `nologin` candidate is refused there before
  any command is issued (`DirectoryAdapter.CreateRecord`).
* One redaction pass does not remove every variant from every text. Cutting a match out of `A%0A%` leaves a piece in
  which the variant `A%` matches again, and cutting `]A` out of `]AA` puts a mark there whose bracket completes it
  again. `RedactionLimits.OnePassExactly` gives the exact condition for every non-empty variant. Over several variants
  a later pass can also bring an earlier one back: `RedactionLimits.ExposedExample`. `RedactionLimits.SettledFold`
  excludes that for every text by a condition on the variants; it holds of all variants without `%` that have at least
  two characters, no brackets, and are no part of the mark (`RedactionLimits.PercentFreeFold`). For texts whose escapes
  are in lower case already any variants without brackets that are no part of the mark will do.
* Noise during the start of the proxy runtime makes the start fail without being recorded as a violation; a
  following clean exit is still reported as expected: `Supervisor.ExpectedDespiteNoise`. By
  `Supervisor.ExpectedExitIsQuiet` that is the only way for noise to come before an expected exit.

## Model

| member | source | states |
|---|---|---|
| Lifecycle.RunLifecycle | native/macos-lifecycle-controller.c:63-149 | for any answers: report flags form an implication chain; each forward flag is true iff the log of this very run holds the event it stands for (verified account, published binary and plist with bytes, mode and owner, verified job, verified process, denial answered true); cleanup runs exactly when preflight passed, and its flags say what was seen undone; every call has its licence and its place in the order; while others leave the claimed slots alone (all else may change), nothing outside the fixed names differs, with truthful probes the claimed slots and inodes are as before unless manual recovery is reported, and even without them the files are; each part is removed whatever becomes of the others, files however far their publication got, and their removal is synced to disk; where only file contents can go wrong no manual recovery is called for; an undisturbed run completes |
| Lifecycle.RunChecked | native/macos-lifecycle-controller.c:83-148 | the same for the part after preflight, from free slots; what the monitor remembers of the run is exactly what the forward flags say; the job flag is true iff every bootstrap that may have had an effect was seen undone and no stop failed, the account flag iff no create that answered OK is left; an effective create answering ambiguous keeps its record, with the account flag set and manual recovery reported |
| Lifecycle.Install | native/macos-lifecycle-controller.c:84-115 | the forward steps happen in order without a gap, bootstrap only after an accepted binding, and stop at the first failure; each flag is set iff its step left its mark; what exists midway is exactly what the ownership records say |
| Lifecycle.UseJob | native/macos-lifecycle-controller.c:108-115 | activation and denial: the two flags are true iff the process was verified right after an activation answered OK, and iff the denial callback answered true right after job and process were confirmed |
| Lifecycle.RememberedHappened | native/macos-lifecycle-controller.c:82-115 | what the monitor remembers is what the log of the current run holds, event by event |
| Lifecycle.InstallFiles | native/macos-lifecycle-controller.c:88-102 | plist only after binary, binding only after both; new inodes are exactly the published ones, and both files and their entries are synced before they are bound |
| Lifecycle.CleanUp | native/macos-lifecycle-controller.c:117-147 | removal order job, plist, binary, account; no step depends on the success of another, and files go however far their publication got; completeness implies final absence; exact meaning of the job and account flags |
| Lifecycle.CleanFiles | native/macos-lifecycle-controller.c:123-124 | both files vanish, and only they, plist before binary, whenever the calls of a removal work, published completely or not |
| Lifecycle.FileCleanup | native/macos-lifecycle-controller.c:53-61 | at most one name and one inode disappear; complete means the name was absent at the last look, and is certain once the inode is on record and the calls of a removal work; a blank record counts as complete and changes nothing |
| Lifecycle.FinalAbsence | native/macos-lifecycle-controller.c:130-143 | true only if all fixed names were seen free, and then they are |
| Lifecycle.Preflight | native/macos-lifecycle-controller.c:74-80 | passes only with every fixed name free, without any mutation |
| Lifecycle.ValidRequest | native/macos-lifecycle-controller.c:40-51 | accepted requests have both digests equal to those of the bytes and name two directories, with nobody else writing two safe ones; and every consistent request over safe parents is then accepted |
| Lifecycle.PublishThenRemove | native/macos-retained-file-ops.c:59-151 | publish, unlink and close, wherever the publish failed: a cleanup that reports success leaves entries, inodes and descriptors exactly as before, and it does report success if only the calls a removal needs work |
| Lifecycle.NothingLeft | native/macos-lifecycle-controller.c:130-147 | if only own slots and inodes may differ and all are free before and after, nothing differs |
| Discipline.WatchSafe | native/macos-lifecycle-controller.c:63-149 | the step-by-step monitor accepts a log iff every event had its licence when it happened |
| Discipline.WatchOrdered | native/macos-lifecycle-controller.c:63-149 | and it accepts the order iff the deeds are strictly increasing and the forward ones form a prefix |
| Discipline.PermitsExactlyLicensed | native/macos-launchd-job-ownership.c:131-200 | what the monitor remembers decides licences exactly as the whole past does |
| AccountOwnership.OwnedAccount.Prepare | native/macos-account-ownership.c:61-78 | OK only if all three names answered absent; error before no-effect; nothing is mutated |
| AccountOwnership.UuidForm | native/macos-account-ownership.c:20-31 | the accepted UUIDs are exactly five dash-separated groups of 8, 4, 4, 4 and 12 upper-case hexadecimal digits with version 4 and one of four variants |
| AccountOwnership.OwnedAccount.Create | native/macos-account-ownership.c:80-100 | verified only after the record read back equal with all names present; any other answer leaves created or nothing |
| AccountOwnership.OwnedAccount.Verify | native/macos-account-ownership.c:102-115 | OK only for a verified account that reads back equal |
| AccountOwnership.OwnedAccount.Delete | native/macos-account-ownership.c:117-139 | the delete callback runs only for a verified account just read back; a sure deletion hits exactly the recorded account; OK iff the callback answered OK and then all three names answered absent, which clears the record; a callback that answered otherwise is not followed by another look; with truthful probes the account is then gone |
| AccountOwnership.AnyRun | native/macos-account-ownership.c:61-139 | any sequence of calls with any answers and any other writers keeps every licence, among them that a sure deletion hits the complete recorded account |
| AccountOwnership.AbsorbingRun | native/macos-account-ownership.c:80-139 | created but unverified is absorbing: no sequence of calls reaches the delete callback |
| JobOwnership.OwnedJob.Prepare | native/macos-launchd-job-ownership.c:76-90 | OK only if label and Mach name answered absent; an error iff one of the looks failed, otherwise no-effect; nothing is mutated |
| JobOwnership.OwnedJob.BootstrapJob | native/macos-launchd-job-ownership.c:109-129 | verified only after the job read back with both names present; anything but no-effect counts as attempted; the log is that of the read-back or of its first failure |
| JobOwnership.OwnedJob.Verify | native/macos-launchd-job-ownership.c:92-107 | OK exactly for a verified job whose whole read-back sequence succeeded; otherwise it ended at its first surprise |
| JobOwnership.OwnedJob.ActivateAndVerify | native/macos-launchd-job-ownership.c:131-147 | activates only a job just confirmed; a failed confirmation gives ownership up; OK iff the activation answered OK and the process was then found, which leaves its mark |
| JobOwnership.OwnedJob.Denial | native/macos-launchd-job-ownership.c:149-166 | the denial counts only right after job and process were both confirmed; a failed read-back gives up the job, a failed process check the process, and nothing else does |
| JobOwnership.OwnedJob.Cleanup | native/macos-launchd-job-ownership.c:168-200 | unverified jobs are only looked at; verified ones are stopped if needed, confirmed again, booted out; a job is forgotten only after a bootout that answered OK and then both names seen absent, and one not forgotten stays verified exactly if no read-back failed; OK iff forgotten and no stop failed |
| JobOwnership.AnyRun | native/macos-launchd-job-ownership.c:76-200 | any sequence of calls with any answers and any other writers keeps every licence, among them that a sure stop or bootout hits a job with the recorded program and user |
| JobOwnership.LostRun | native/macos-launchd-job-ownership.c:109-200 | once bootstrapped but unverified, every licence is kept and no activate, denial, stop or bootout happens before the job was forgotten, which takes both names just seen absent |
| JobOwnership.LimboRun | native/macos-launchd-job-ownership.c:76-200 | after a bootstrap that did not answer OK, no script without another bootstrap call does anything to the job or changes its record before both names were seen absent |
| JobOwnership.AdoptedFromLimbo | native/macos-launchd-job-ownership.c:109-147 | from every such state one more bootstrap, on a host that does as it is told, is adopted and activated |
| JobOwnership.AdoptedAfterAmbiguity | native/macos-launchd-job-ownership.c:109-129 | a run whose first bootstrap answers ambiguous and whose second is adopted, verified and activated |
| RetainedFiles.WriteAll | native/macos-retained-file-ops.c:22-31 | every pattern of short writes and interruptions leaves exactly the bytes, or reports failure |
| RetainedFiles.ReadMatches | native/macos-retained-file-ops.c:33-46 | succeeds only if the content starts with the expected bytes; with working calls exactly then |
| RetainedFiles.OwnedFile.Publish | native/macos-retained-file-ops.c:59-94 | while others leave the entry alone: OK is one new entry and one new inode with exactly these bytes, mode, owner and group; on any host OK means file and folder were synced after the last change; no-effect means the name was taken; the inode is recorded by the first look, before anything else can go wrong, and from then on the file can be removed |
| RetainedFiles.OwnedFile.Verify | native/macos-retained-file-ops.c:96-122 | OK only if the entry leads to the retained single-link inode with these bytes, permission bits, owner and group |
| RetainedFiles.OwnedFile.Unlink | native/macos-retained-file-ops.c:124-145 | at most one removal, of the recorded inode unless somebody came between the last look and the removal; OK means the entry was gone at the last look and, while others leave it alone, nothing else changed; certain for a file in place if the calls of a removal work; OK means the folder was synced after the removal |
| Provisioning.ProvisionRunCleanup | native/macos-runner-provisioning.c:102-133 | the report is sound: no call for help means the claimed slots are as before, and none is made if the calls a removal needs work, wherever publication or execution failed; a collision is left alone; at most one execution, of the very inode, bytes and mode that was created and verified twice just before, and the success flag is its outcome |
| Provisioning.PublishAndRun | native/macos-runner-provisioning.c:110-122 | a run that executes has the exact log: created, verified, verified again, executed, all of one inode with the requested bytes, mode, owner and group |
| HostModel.Host.OpenExclusive | native/macos-retained-file-ops.c:73-74 | exclusive creation never yields an existing child and yields an unused inode |
| HostModel.Host.UnlinkPath | native/macos-retained-file-ops.c:136 | removal by name removes whatever the name leads to at that moment |
| HostModel.Host.DeleteRecord | native/macos-account-ownership.h:30-38 | what the account layer may rely on of the delete callback: it may answer anything, touches only the account's slot, and acts on whatever that holds by then |
| Wiring.NativeWiring.VerifyArtifacts | native/macos-native-lifecycle-wiring.c:74-85 | true only if artifacts are bound, both parents have just answered with their exact paths and both retained files have just verified, binary first, against reviewed bytes, modes and owners; and always if all of that is so and nobody interferes |
| Wiring.NativeWiring.Bind | native/macos-native-lifecycle-wiring.c:87-102 | binds once, only two owned files in parents at their exact paths that verify at once; a binder that looked and refused leaves nothing bound, one that did not look changes nothing |
| Wiring.NativeWiring.RunLaunchctl | native/macos-launchctl-job-adapter.c:61-66 | mutating commands require the gate of their own argument vector to be open and, while others leave the files alone, files as reviewed at that very moment; the command acts on whatever is loaded, and what an obliging launchctl then does follows from its second word |
| Wiring.NativeWiring.Bootstrap | native/macos-launchctl-job-adapter.c:214-224 | issues exactly `launchctl bootstrap system` with the plist, directly after a check of both files; OK iff issued and silent; never no-effect; error exactly for a foreign record, before any command; an obliging launchctl then has the job loaded and not running |
| Wiring.NativeWiring.Activate | native/macos-launchctl-job-adapter.c:234-244 | the same for exactly `launchctl kickstart` of the job; an obliging launchctl then runs it |
| Wiring.NativeWiring.StopProcess | native/macos-launchctl-job-adapter.c:272-281 | issues exactly `launchctl kill SIGTERM` of the job, iff the gated print just before shows the expected job; OK iff issued and silent; on a truthful host what it hits has its program and user unless somebody came between; an obliging launchctl leaves the job loaded and not running |
| Wiring.NativeWiring.Bootout | native/macos-launchctl-job-adapter.c:283-292 | the same for exactly `launchctl bootout` of the job; an obliging launchctl leaves neither job nor Mach name |
| Gate.GateByWord | native/macos-launchctl-job-adapter.c:213-292 | the gate by literal words: a launchctl command in a gated log is a print or one of four fixed vectors; `bootstrap` and `kickstart` follow directly on a check of both files, `kill` and `bootout` on a print of the expected job behind such a check |
| Wiring.NativeWiring.ProbeLabel | native/macos-launchctl-job-adapter.c:190-205 | absent iff exit 113 with the exact message, present iff the output prints the expected job; with a truthful launchctl the answer is the one the job layer relies on |
| Wiring.NativeWiring.ProbeMachService | native/macos-launchctl-job-adapter.c:207-212 | no probe for any name but the fixed one; else the verdict on the whole snapshot, true to the Mach names of a truthful system |
| Wiring.ReadBackIsPartial | native/macos-launchctl-job-adapter.c:144-168 | a printed job, however its lines are indented, is read back as the expected one iff program and user agree, whatever its digests, Mach name and start policy |
| Wiring.NativeWiring.ReadLoaded | native/macos-launchctl-job-adapter.c:226-232 | the expected record iff a gated print shows it; with a truthful launchctl the loaded job has its program and user |
| Wiring.NativeWiring.VerifyProcess | native/macos-launchctl-job-adapter.c:246-256 | true iff a gated print shows the job running with one pid, which is remembered; failure forgets it |
| Wiring.NativeWiring.ExerciseDenial | native/macos-launchctl-job-adapter.c:258-270 | the denial probe is called with exactly the pid that the gated print directly before it had shown |
| Wiring.AnyRun | native/macos-launchctl-job-adapter.c:177-292 | for any sequence of callbacks, bindings and removals with any interference, every launchctl mutation is one of the four known ones and directly follows a check of both bound files and their parents; a kill or bootout directly follows a print of the expected job behind such a check |
| Wiring.DeriveBindings | native/macos-native-lifecycle-wiring.c:50-72 | succeeds iff the recorded digests are those of the bytes at hand, and returns those digests |
| Wiring.Sha256TextIs | native/macos-launchctl-job-adapter.c:20-27 | the digest texts a job record may carry are exactly the hexadecimal forms of 32 bytes |
| Wiring.RunAuthorized | native/macos-native-lifecycle-wiring.c:208-225 | nothing is touched unless one genuine current receipt names exactly the bytes to be installed; then all lifecycle promises hold, and nothing stays bound |
| Digests.ParseDigest | native/macos-native-lifecycle-wiring.c:33-48 | accepts exactly the lower-case hexadecimal forms of 32 bytes and inverts them |
| Digests.HexInjective | native/macos-native-lifecycle-wiring.c:39-48 | equal digest texts mean equal digests |
| Digests.HexForm | native/macos-native-lifecycle-wiring.c:39-48 | each byte is two characters of 0123456789abcdef, the high half first |
| Transport.ReadExact | native/macos-lifecycle-approval.c:116-127 | exactly the next bytes for every split, or failure; always succeeds if they arrive in time |
| Transport.WriteExact | native/macos-lifecycle-approval.c:129-147 | all bytes for every split, or a prefix and failure; always succeeds in time |
| Transport.ExactReadThenEof | native/macos-lifecycle-approval.c:149-159 | the whole stream is exactly this long and ended; one byte more is refused |
| Nonces.EqualBytes | native/macos-lifecycle-approval.c:68-74 | the XOR and OR accumulator is zero iff the bytes are equal |
| Nonces.NonZero | native/macos-lifecycle-approval.c:161-165 | true iff some byte is not zero |
| Nonces.NonceRing.Seen | native/macos-lifecycle-approval.c:170-175 | the slot search finds exactly the last 64 accepted nonces |
| Nonces.NonceRing.RememberOnce | native/macos-lifecycle-approval.c:167-183 | the ring refines the queue of the last 64: accepted iff not among them, and then appended; repeats stay at least 64 other acceptances apart |
| Nonces.SpacedSnoc | native/macos-lifecycle-approval.c:167-183 | accepting a nonce outside the last 64 keeps every two acceptances of one nonce at least 64 others apart |
| Nonces.RecentDistinct | native/macos-lifecycle-approval.c:167-183 | the stored nonces are pairwise distinct |
| Approval.ChallengeIs | native/macos-lifecycle-approval.c:256-259 | passing the answerer's field checks is the same as being the encoding of a challenge |
| Approval.ReceiptIs | native/macos-lifecycle-approval.c:219-227 | field checks, nonce and the three digests, each at its own place, leave only the expiry of the 160 bytes open |
| Approval.Issue | native/macos-lifecycle-approval.c:196-212 | one challenge with this runner's pid and nonce, only for an elevated runner over a checked socket |
| Approval.Consume | native/macos-lifecycle-approval.c:213-235 | accepted only for exactly one genuine receipt then end of stream, expiry in (now, now + 120 s], nonce not among the last 64, which is then remembered; all that in time is always accepted |
| Approval.ReceiveApproval | native/macos-lifecycle-approval.c:196-235 | soundness against any peer: acceptance implies all of the above for its own fresh challenge |
| Approval.AnswerChallenge | native/macos-lifecycle-approval.c:237-276 | answers only a well-formed challenge, with one receipt for its pid, nonce and the given bindings, expiring 30 s on, then ends the stream |
| Approval.Exchange | native/macos-lifecycle-approval.c:196-276 | completeness: in time and for every split, runner and launcher agree iff bindings and users agree and the nonce is new |
| Approval.ReceiptDetermines | native/macos-lifecycle-approval.c:36-45 | equal receipts mean equal user, pid, nonce and bindings |
| MachPresence.CollectPresence | native/macos-launchctl-mach-presence.c:137-220 | streaming equals batch: for every split into reads the answer is the one the whole snapshot deserves, or an error |
| MachPresence.VerdictIs | native/macos-launchctl-mach-presence.c:39-71 | among lines of tabs and printable characters of at most 8192 the answer is present iff one of them is the quoted name and the opening brace, with any spaces and tabs on both sides, and absent otherwise |
| MachPresence.ScanChunk | native/macos-launchctl-mach-presence.c:96-117 | a refused chunk makes the whole snapshot unacceptable whatever follows |
| MachPresence.NameScanner.ScanByte | native/macos-launchctl-mach-presence.c:59-71 | refuses exactly illegal bytes and the 8193rd byte of a line |
| MachPresence.NameScanner.FinishLine | native/macos-launchctl-mach-presence.c:39-57 | found iff some completed line, trimmed, registers the endpoint |
| MachPresence.NameScanner.Names | native/macos-launchctl-mach-presence.c:44-55 | the buffer comparison equals trimmed equality with the endpoint line |
| MachPresence.LongLineSpoils | native/macos-launchctl-mach-presence.c:67 | an overlong line anywhere makes the snapshot unacceptable |
| LineText.LinesOfJoined | native/macos-launchctl-job-adapter.c:72-83 | splitting a newline-terminated text gives back the lines it was joined from |
| LineText.JoinedLines | native/macos-launchctl-job-adapter.c:72-83 | joining the lines of a newline-terminated text gives the text back |
| LineText.ScanLine | native/macos-launchctl-job-adapter.c:73-78 | the index scan finds the next line and its trimmed part, within bounds |
| LineText.TrimExactly | native/macos-launchctl-job-adapter.c:76-79 | trimming gives `t` iff the line is `t` between runs of the characters space and tab, and `t` neither starts nor ends with one |
| LaunchctlText.ExactTrimmedLineCount | native/macos-launchctl-job-adapter.c:68-85 | equals the number of lines that trimmed equal the text |
| LaunchctlText.UniqueKeyLine | native/macos-launchctl-job-adapter.c:87-109 | true iff one line has the key and one line is the expected one |
| LaunchctlText.UniqueKeyMeans | native/macos-launchctl-job-adapter.c:87-109 | which is to say the only line with the key is the expected one |
| LaunchctlText.UniquePidLine | native/macos-launchctl-job-adapter.c:111-142 | answers p iff exactly one pid line exists and reads as p in 2..99999999 |
| LaunchctlText.PidForm | native/macos-launchctl-job-adapter.c:128-138 | of what strtoul reads only blanks, one plus and digits survive the range check |
| LaunchctlText.PlainPidAccepted | native/macos-launchctl-job-adapter.c:111-142 | every pid in range is accepted in plain decimal |
| LaunchctlText.PidNotCanonical | native/macos-launchctl-job-adapter.c:111-142 | a signed, padded pid is accepted too |
| LaunchctlText.CanonicalPid | native/macos-launchctl-job-adapter.c:111-142 | an accepted text is canonical iff it starts with a digit other than zero |
| LaunchctlText.ParsedLoadedJob | native/macos-launchctl-job-adapter.c:144-168 | true iff a clean safe output has one header line and only the expected program and user lines |
| LaunchctlText.ParsedRunningJob | native/macos-launchctl-job-adapter.c:169-175 | answers p iff besides the only state line says running and the only pid line says p |
| LaunchctlText.PrintedJobPrints | native/macos-launchctl-job-adapter.c:144-175 | the print of any printable job, with or without a process and with any spaces and tabs around each line, is accepted as that job and that process |
| LaunchctlText.PrintsOneJob | native/macos-launchctl-job-adapter.c:144-168 | no output prints two jobs under one label that differ in program or user |
| Decimals.ShortNegativeIsHuge | native/macos-launchctl-job-adapter.c:128-138 | eight characters with a minus sign never read as a number in 1..99999999 |
| Decimals.StrtoulSkips | native/macos-launchctl-job-adapter.c:128-138 | any run of the six white space characters in front of a number changes nothing |
| SearchText.SafeSearchOutput | native/macos-dscl-directory-adapter.c:42-65 | the counting automaton accepts exactly nothing or complete lines of two fields each |
| SearchText.TwoFieldsForm | native/macos-dscl-directory-adapter.c:42-65 | two counted fields means blanks, graphic field, blanks, graphic field to the end of the line |
| SearchText.TwoFieldsWords | native/macos-dscl-directory-adapter.c:42-65 | a line counts as two fields iff it is two words of the codes 0x21 to 0x7e with spaces and tabs between them, and perhaps in front |
| DirectoryText.ParseRecord | native/macos-dscl-directory-adapter.c:136-177 | accepts exactly the outputs that print a valid record, and returns that record |
| DirectoryText.RoundTrip | native/macos-dscl-directory-adapter.c:136-177 | parsing the printed form gives the record back, for every valid record and every order of its four lines |
| DirectoryText.PrintsOnce | native/macos-dscl-directory-adapter.c:136-177 | an output prints at most one set of values |
| DirectoryText.NegativeForm | native/macos-dscl-directory-adapter.c:152-158 | every account number has another accepted form below zero |
| DirectoryText.UidForm | native/macos-dscl-directory-adapter.c:147-158 | all accepted texts of a number: its digits with an optional plus sign, or a minus sign and its negative modulo 2^64 |
| DirectoryText.CanonicalUid | native/macos-dscl-directory-adapter.c:152-158 | an accepted text is what printing the number gives iff it starts with a digit other than zero |
| DirectoryAdapter.CreateRecord | native/macos-dscl-directory-adapter.c:104-134 | the commands issued are a prefix of the eight; OK iff all eight were clean and silent, error iff none was issued, never no-effect; only the account's slot changes, and with dscl doing what each command says the record is complete, whatever the slot held |
| DirectoryAdapter.AllApplied | native/macos-dscl-directory-adapter.c:104-134 | the effect of a command being what its words say, the eight leave exactly the complete record in the slot, whatever it held |
| DirectoryAdapter.CommandEffects | native/macos-dscl-directory-adapter.c:67-77 | by their words reads and searches change nothing and the delete command empties the slot |
| DirectoryAdapter.ReadRecord | native/macos-dscl-directory-adapter.c:179-189 | answers iff a clean read prints a valid record; meets the contract the account layer relies on |
| DirectoryAdapter.DeleteRecord | native/macos-dscl-directory-adapter.c:191-207 | a delete goes out only after a read that printed the very record; OK iff it was sent and stayed silent; on a truthful host it hits exactly that record unless somebody wrote the slot between the two commands |
| DirectoryAdapter.Search | native/macos-dscl-directory-adapter.c:67-77 | absent iff clean and empty, present iff clean and made of search results; with a truthful dscl the answer is true |
| DirectoryAdapter.ProbeName | native/macos-dscl-directory-adapter.c:79-82 | no command for any name but the fixed one; for that, the exact answer of the search, and what the account layer relies on of a truthful dscl |
| DirectoryAdapter.ProbeUniqueId | native/macos-dscl-directory-adapter.c:84-90 | no command for a number outside 1..499; for others the exact answer of the search, true of a truthful dscl |
| DirectoryAdapter.ProbeGeneratedUid | native/macos-dscl-directory-adapter.c:92-102 | no command for a text that is not a canonical UUID; for others the exact answer of the search, true of a truthful dscl |
| Redaction.LowAt | src/broker.js:105-107 | canonicalising changes exactly the digits of percent escapes to lower case, at unchanged positions |
| Redaction.LowIdempotent | src/broker.js:105-107 | canonicalising twice is canonicalising once |
| Redaction.RedactPercentVariant | src/broker.js:109-120 | the loop builds the text with the taken matches replaced and everything else copied |
| Redaction.MatchesApart | src/broker.js:113-118 | the taken matches are matches and do not overlap |
| Redaction.MatchesCover | src/broker.js:113-118 | no match starts outside them: each is the leftmost that was left |
| Redaction.TextContainsSensitiveVariant | src/broker.js:122-128 | true iff some variant occurs, both sides canonical |
| Redaction.CanonicalPass | src/broker.js:109-120 | one pass over canonical text removes its variant and lets no other appear |
| Redaction.RedactSensitiveVariants | src/broker.js:204-213 | for every text the result is all passes one after the other; text in which no variant occurs comes back unchanged; canonical text is left without any ordinary variant |
| Redaction.EscapeCodes | src/broker.js:105-107 | escapes by character codes, and what lower-casing does to their digits |
| Redaction.CanonicalFold | src/broker.js:204-213 | after all passes canonical text holds none of the variants, as long as these have no brackets and are no part of the mark |
| Redaction.NothingToRedact | src/broker.js:109-120 | text that holds no variant is copied unchanged through all passes |
| Redaction.PercentFree | src/broker.js:105-107 | text without percent signs is canonical |
| RedactionLimits.OnePassExactly | src/broker.js:109-120 | one pass removes its variant from every text iff the variant neither splits an escape nor is completed again by the mark; for every non-empty variant |
| RedactionLimits.OneVariantExactly | src/broker.js:204-213 | lifted to the fold over a single variant, for every text and any escapes: nothing is left of every text iff the variant neither splits an escape nor is completed by the mark |
| RedactionLimits.SettledFold | src/broker.js:204-213 | for every text and any escapes the fold leaves no variant when each one is removed by its own pass and exposed by no later one, a condition on the variants alone |
| RedactionLimits.PassesRemove | src/broker.js:204-213 | the same for one variant among others: settled, it is gone in the end; the last variant needs no more than its own pass |
| RedactionLimits.PercentFreeFold | src/broker.js:204-213 | which holds whenever all variants have two characters or more, no percent sign, no bracket, and are no part of the mark |
| RedactionLimits.ExposedExample | src/broker.js:204-213 | the variants Fx and 2, removed in this order from %2Fx, leave Fx |
| RedactionLimits.WitnessLeaks | src/broker.js:109-120 | for every variant that splits an escape a concrete text keeps it |
| RedactionLimits.SpreadLeaks | src/broker.js:109-120 | for every variant that the mark completes a concrete text, the variant between its own beginning and its own end, keeps it |
| RedactionLimits.NothingFound | src/broker.js:109-120 | for all other variants no occurrence is left, inside a copied stretch or across any mark |
| RedactionLimits.BracketExample | src/broker.js:109-120 | the variant ]A survives in ]AA |
| RedactionLimits.SplitExample | src/broker.js:109-120 | the variant A% survives in A%0A% |
| Headers.SplitJoin | src/broker.js:509-518 | comma splitting loses nothing |
| Headers.SplitUnique | src/broker.js:509-518 | and is the only reading of a text as comma-free parts |
| Headers.ConnectionTokens | src/broker.js:509-518 | exactly the names the Connection header nominates (section 7.6.1 of RFC 9110) |
| Headers.TrimJsExactly | src/broker.js:516 | trimming a token gives `t` iff it is `t` between runs of white space, and `t` neither starts nor ends with any |
| Headers.ToLowerAt | src/broker.js:516-521 | lower-casing moves capital letters by 32 and leaves every other character |
| Headers.FilterHeaders | src/broker.js:519-530 | exactly the safe, not nominated caller headers pass, each with its last value |
| Headers.PinnableIsLower | src/policy.js:888-915 | a name a policy may pin is lower case, so it shares its key with a caller's header |
| Broker.ReadBounded | src/broker.js:816-863 | complete iff declared and actual size fit and no read fails, and then the joined bytes |
| Broker.BufferContainsSensitiveVariant | src/broker.js:724-729 | the whole body is scanned, as bytes and as text |
| Broker.HeadersContainSensitiveVariant | src/broker.js:736-742 | every header name and value is scanned |
| Broker.SanitizeResponseHeaders | src/broker.js:768-805 | exactly the unblocked headers unchanged, a content type and the true length; nothing is left to choice |
| Broker.Exchange.OutboundHeaders | src/broker.js:506-543 | the secret in its slot, and besides exactly the caller's headers that have a value and are neither reserved nor nominated nor the slot itself, each with the value of its last occurrence |
| Broker.OutboundOnce | src/broker.js:506-543 | that fixes the outbound headers uniquely |
| Broker.Exchange.Relay | src/broker.js:630-705 | forwarded iff the answer is complete, bounded, no redirect and free of the secret as a whole |
| Broker.Exchange.Handle | src/broker.js:469-706 | exactly one reply and at most one call, fixed in method, URL, headers and body: all of the caller's body unless it is empty or the method has none; a forwarded body is at most 1 MiB and passed the scan; all else is a fixed error |
| Broker.ChunkingIrrelevant | src/broker.js:836-862 | the whole reply, headers included, does not depend on how the upstream cuts its body |
| FrameCodec.EncodeFrame | src/onecli-proxy-runtime-frame.js:140-147 | the buffer filled field by field is magic, version, big-endian length, payload |
| FrameCodec.CollectStream | src/onecli-proxy-runtime-frame.js:96-126 | bytes are handed on iff nothing but chunks came before the end of the stream and they fit, for every chunking; each failure carries the code of the event that decided |
| FrameCodec.ParseIs | src/onecli-proxy-runtime-frame.js:127-137 | parsing accepts exactly the encodings of payloads of 1 to max bytes |
| FrameCodec.ParseFails | src/onecli-proxy-runtime-frame.js:127-137 | refused bytes are refused for their header if magic, version and length field are not there, and otherwise for a length that is not theirs or out of range |
| FrameCodec.ReadFrame | src/onecli-proxy-runtime-frame.js:90-138 | a payload comes back iff its own frame was delivered, for every chunking; every failure has its reason: an event that decided, or delivered bytes with a wrong header or a wrong length |
| FrameCodec.NeverConfused | src/onecli-proxy-runtime-frame.js:10-11 | no stream is a token frame and a policy frame at once |
| FrameCodec.ReadTokenFrame | src/onecli-proxy-runtime-frame.js:21-31 | exactly graphic ASCII tokens of 1 to 512 bytes are read; another payload is an encoding error, every other failure has its reason |
| Endian.BigInverse | src/onecli-proxy-runtime-frame.js:140-147 | reading a big-endian field gives back what was written |
| Endian.BigBytes | src/onecli-proxy-runtime-frame.js:140-147 | the first of four big-endian bytes weighs 2^24, the last 1 |
| Endian.FromLittleInverse | native/macos-lifecycle-approval.c:27-48 | the bytes of a little-endian field are those of the number it holds |
| Endian.LittleBytes | native/macos-lifecycle-approval.c:27-48 | the first of four little-endian bytes weighs 1, the fourth 2^24, and further ones follow on in units of 2^32 |
| Supervisor.RuntimeSupervisor.OnStdout | src/onecli-proxy-runtime-supervisor.js:190-217 | one valid record and nothing after it; any later byte ends the handle |
| Supervisor.RuntimeSupervisor.OnTrouble | src/onecli-proxy-runtime-supervisor.js:178-189 | standard error or a broken pipe ends the start or the handle |
| Supervisor.RuntimeSupervisor.OnExit | src/onecli-proxy-runtime-supervisor.js:60-69 | expected iff closed before, code 0, no signal, no violation so far; the first exit stays |
| Supervisor.RuntimeSupervisor.OnListener | src/onecli-proxy-runtime-supervisor.js:103-107 | the handle becomes active only without violation and exit |
| Supervisor.Supervise | src/onecli-proxy-runtime-supervisor.js:56-136 | for every interleaving: active implies exactly one valid record and silence otherwise; an undisturbed start is active; the first exit is reported as expected iff, by the events before it, a close was requested, there was no noise after the complete record, and it has code 0 and no signal |
| Supervisor.ExpectedExitIsQuiet | src/onecli-proxy-runtime-supervisor.js:60-69 | noise precedes an expected exit only if the start was given up while reading; otherwise one valid record and nothing else does |
| Supervisor.StaysInactive | src/onecli-proxy-runtime-supervisor.js:155-224 | after noise or an exit the handle is inactive for good |
| Supervisor.ExpectedDespiteNoise | src/onecli-proxy-runtime-supervisor.js:171-189 | noise during the start followed by a clean exit is reported as expected |

## Left out

- Process plumbing (spawn, fork, poll, pipes, process-group kill, descriptor inheritance): a command returns some output or fails.
- Mach messages, audit trailers, elevation and parent checks, socket address checks: their outcomes are parameters.
- SHA-256, JSON, URL and UTF-8 decoding: functions given as parameters; the hash is any function to 32 bytes.
- The Windows helper, the fake API, demo runners and fixture entry points.
- Null pointers and state magic checks: references are never null and records are always initialised. The negative directory descriptors the source refuses are not modelled.
- Interruptions: any number, but finitely many.
- An inode number stands for a device and inode pair, and a retained parent descriptor for the directory it was opened on.
- Clock wrap-around: instants stay below 2^63 nanoseconds, so that sums with the time-outs fit into 64 bits.
- Lifecycle.RunLifecycle: its binder and callbacks are those of the abstract machine. The wired callbacks are proved separately to change no more and, from truthful command output, to answer what the abstract ones promise; the obliging regime is met where the files are undisturbed and no other job is loaded. For the Mach probe only truth is proved, not that it answers.
- HostModel.Host.StopJob: what it hits is promised only while nobody changed the loaded job since the last read-back; the same holds for bootout, and for account deletion and file removal since their last look.
- Wiring.RunAuthorized: runs the lifecycle over the abstract callbacks; that the wired ones could take their place rests on the callback-by-callback contracts, no theorem composes the two.
- Approval.Exchange: each party finishes its part before the other goes on; overlapping partial transfers of the two are not covered by the completeness theorem (soundness holds against any peer).
- Wiring.NativeWiring.CheckFile: that the bound files lie in the two parents asked for their paths is not compared, as in the source.
- Redaction.RedactSensitiveVariants: holds for every order of the variants, of which longest first is one; sorting, and the recursion into arrays and objects, are not modelled.
- RedactionLimits.SettledFold: its condition is shown to be necessary for a single variant only; among several a later pass may also remove by chance what an earlier one left.
- Building the variant sets (Base64, form encoding) and the policy checks other than the pinned header name.
- Broker.Exchange.Handle: a caller header named `__proto__` is kept like any other here; the URL integrity check of query credentials is a parameter.
- Supervisor.Supervise: the timed escalation of a close (end of lease, SIGTERM, SIGKILL) acts on the child only and is not modelled.
- Overwriting of secret buffers with zeros.
- Durability: what this process changed and has not synced since is tracked, but a crash between calls is not modelled.
- Headers.ToLowerAt: header text is ISO 8859-1; lower-casing beyond that range is not modelled.
- DirectoryAdapter.AllApplied: group, visibility and real name are among the commands of a create, but no part of the modelled record.
- Fairness and real time: nothing says that a peer ever answers.
