/** When a launchctl command may be issued, as a property of the log of everything done before. */
module Gate {
  import opened Basics
  import opened Records
  import opened Discipline
  import opened Commands
  import opened LaunchctlText
  import Lifecycle

  const LAUNCHCTL := "/bin/launchctl"
  const TARGET := "system/" + FIXED_LABEL
  const PLIST_PATH := "/Library/LaunchDaemons/" + PLIST_NAME
  const BINARY_PARENT := "/Library/PrivilegedHelperTools"
  const PLIST_PARENT := "/Library/LaunchDaemons"

  const PRINT := [LAUNCHCTL, "print", TARGET]

  /** The two commands that bring the job up. */
  predicate Starts(args: seq<string>) {
    args == [LAUNCHCTL, "bootstrap", "system", PLIST_PATH] || args == [LAUNCHCTL, "kickstart", TARGET]
  }

  /** The two that take its process or the job itself away. */
  predicate Ends(args: seq<string>) {
    args == [LAUNCHCTL, "kill", "SIGTERM", TARGET] || args == [LAUNCHCTL, "bootout", TARGET]
  }

  /** Any launchctl command but print. */
  predicate Mutates(e: Event) {
    e.RunCommand? && |e.args| > 1 && e.args[0] == LAUNCHCTL && e.args[1] != "print"
  }

  lemma PrintLooks(o: Option<CommandOutput>)
    ensures !Mutates(RunCommand(PRINT, o))
  {
    hide LAUNCHCTL, TARGET;
  }

  lemma OthersMutate(args: seq<string>, o: Option<CommandOutput>)
    requires Starts(args) || Ends(args)
    ensures |args| > 1 && Mutates(RunCommand(args, o))
  {
    hide LAUNCHCTL, TARGET, PLIST_PATH;
  }

  /** How many launchctl mutations were issued. */
  function Mutations(l: Log): nat {
    if l.Start? then 0 else Mutations(l.past) + if Mutates(l.last) then 1 else 0
  }

  /** What was reviewed: the bytes of both files, who must own them, and the two parents they lie in. */
  datatype Reviewed = Reviewed(
    binary: seq<Byte>, plist: seq<Byte>, owner: nat, group: nat, binaryParent: nat, plistParent: nat,
    fixturePaths: bool)

  /** The last thing that happened: a file this process had created exclusively was found as reviewed. */
  predicate Checked(l: Log, bytes: seq<Byte>, mode: nat, owner: nat, group: nat) {
    && l.Then?
    && l.last.FileVerified?
    && l.last.bytes == bytes
    && l.last.mode == mode
    && l.last.owner == owner
    && l.last.group == group
    && Has(l.past, Opened(l.last.key, l.last.ino))
  }

  /** Both parents have just been found at their places, the binary's first; test fixtures are not asked for theirs. */
  predicate PathsChecked(l: Log, r: Reviewed) {
    || r.fixturePaths
    || (&& l.Then? && l.last == FolderPath(r.plistParent, Some(PLIST_PARENT))
        && l.past.Then? && l.past.last == FolderPath(r.binaryParent, Some(BINARY_PARENT)))
  }

  /** Both files have just been found as reviewed, the binary first. */
  predicate FilesChecked(l: Log, r: Reviewed) {
    && Checked(l, r.plist, Lifecycle.PLIST_MODE, r.owner, r.group)
    && Checked(l.past, r.binary, Lifecycle.BINARY_MODE, r.owner, r.group)
    && PathsChecked(l.past.past, r)
  }

  /** Artifacts were bound before, and both have just been checked where they should lie. */
  predicate BothChecked(l: Log, r: Reviewed) { FilesChecked(l, r) && Has(l, BindArtifacts(true)) }

  /** The expected job was printed, right after such a check. */
  ghost predicate Shown(l: Log, r: Reviewed, j: JobRecord) {
    && l.Then? && l.last.RunCommand? && l.last.args == PRINT
    && l.last.output.Some? && PrintsJob(l.last.output.value, j)
    && BothChecked(l.past, r)
  }

  /** Starting a job takes the check, ending one also its print; there are no other mutations. */
  ghost predicate Open(l: Log, r: Reviewed, j: JobRecord, args: seq<string>) {
    (Starts(args) && BothChecked(l, r)) || (Ends(args) && Shown(l, r, j))
  }

  /** Every launchctl mutation in the log was one of the four known ones, issued at its open gate. */
  ghost predicate Gated(l: Log, r: Reviewed, j: JobRecord) {
    l.Then? ==> Gated(l.past, r, j) && (Mutates(l.last) ==> Open(l.past, r, j, l.last.args))
  }

  /** The gate, by the word that follows the command's path. */
  lemma GateByWord(l: Log, r: Reviewed, j: JobRecord, args: seq<string>, o: Option<CommandOutput>)
    requires Gated(Then(l, RunCommand(args, o)), r, j) && |args| > 1 && args[0] == "/bin/launchctl"
    ensures args[1] in {"print", "bootstrap", "kickstart", "kill", "bootout"}
    ensures args[1] == "bootstrap" ==> args == ["/bin/launchctl", "bootstrap", "system", PLIST_PATH]
    ensures args[1] == "kickstart" ==> args == ["/bin/launchctl", "kickstart", TARGET]
    ensures args[1] == "kill" ==> args == ["/bin/launchctl", "kill", "SIGTERM", TARGET]
    ensures args[1] == "bootout" ==> args == ["/bin/launchctl", "bootout", TARGET]
    ensures args[1] == "bootstrap" || args[1] == "kickstart" ==> BothChecked(l, r)
    ensures args[1] == "kill" || args[1] == "bootout" ==>
              Shown(l, r, j) && l.last.args == ["/bin/launchctl", "print", TARGET]
  {
    hide TARGET, PLIST_PATH, BothChecked;
  }

  lemma GatedCommand(l: Log, r: Reviewed, j: JobRecord, args: seq<string>, o: Option<CommandOutput>)
    requires Gated(l, r, j) && Open(l, r, j, args)
    ensures Gated(Then(l, RunCommand(args, o)), r, j)
    ensures Mutations(Then(l, RunCommand(args, o))) == Mutations(l) + 1
  {
    hide Mutates;
    OthersMutate(args, o);
  }

  /** What is no launchctl mutation leaves the gate as it is. */
  lemma GatedLook(l: Log, r: Reviewed, j: JobRecord, e: Event)
    requires Gated(l, r, j) && !Mutates(e)
    ensures Gated(Then(l, e), r, j) && Mutations(Then(l, e)) == Mutations(l)
  {
  }
}
