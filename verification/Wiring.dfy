/**
  The native wiring: launchd callbacks made of launchctl commands, each gated by a fresh verification of both
  bound files, and the authorized run built on them.
 */
module Wiring {
  import opened Basics
  import opened Records
  import opened Discipline
  import opened HostModel
  import opened RetainedFiles
  import opened Commands
  import opened LaunchctlText
  import opened LineText
  import opened Gate
  import opened Digests
  import opened Nonces
  import opened Transport
  import opened Approval
  import Ownership = JobOwnership
  import Mach = MachPresence
  import Lifecycle

  const ABSENT_STDERR := "Bad request.\nCould not " + "find service \"" + FIXED_LABEL + "\" in domain " + "for system\n"
  const ABSENT_OUTPUT := CommandOutput(true, 113, false, "", ABSENT_STDERR)

  /** launchctl's one answer for a job that is not loaded. */
  predicate SaysAbsent(o: CommandOutput) { CleanExit(o, 113) && o.stdout == "" && o.stderr == ABSENT_STDERR }

  /** Nothing else means absence: exit code 113, and this one complaint. */
  lemma AbsentIs(o: CommandOutput)
    ensures SaysAbsent(o) <==> o == ABSENT_OUTPUT
    ensures ABSENT_OUTPUT.stderr ==
            "Bad request.\nCould not find service \"" + FIXED_LABEL + "\" in domain for system\n"
  {
    hide FIXED_LABEL;
    assert "Could not " + "find service \"" == "Could not find service \"";
  }

  /** A record the adapter handles can be printed. */
  lemma RecordIsPrintable(j: JobRecord)
    requires Ownership.ValidRecord(j)
    ensures Printable(j)
  {
    LabelIsPlain();
    PlainAfter("/Library/PrivilegedHelperTools/", FIXED_LABEL);
    hide FIXED_LABEL;
  }

  lemma LabelIsPlain()
    ensures PlainField(FIXED_LABEL) && |FIXED_LABEL| < 100
  {
    PlainAfter("de.frederikstadler", ".bitwarden-agent");
    PlainAfter("de.frederikstadler" + ".bitwarden-agent", "-credential-bridge");
    PlainAfter("de.frederikstadler" + ".bitwarden-agent" + "-credential-bridge", ".helper");
  }

  lemma PlainAfter(a: string, b: string)
    requires (forall i | 0 <= i < |a| :: SafeByte(a[i]) && a[i] != '\n') && PlainField(b)
    ensures PlainField(a + b)
  {
    var s := a + b;
    assert forall i | 0 <= i < |s| :: s[i] == if i < |a| then a[i] else b[i - |a|];
  }

  /** The file itself, at this moment: the reviewed bytes under the published name, in the inode created for it. */
  ghost predicate AsReviewed(w: World, f: OwnedFile, bytes: seq<Byte>, mode: nat, owner: nat, group: nat) reads f {
    && f.InPlace'(w)
    && f.inode == f.fd.value
    && w.inodes[f.inode] == Inode(Regular, bytes, w.inodes[f.inode].mode, owner, group, 1)
    && w.inodes[f.inode].mode % 0x200 == mode
  }

  /** The same, with the very mode bits the publisher sets. */
  ghost predicate AsPublished(w: World, f: OwnedFile, bytes: seq<Byte>, mode: nat, owner: nat, group: nat) reads f {
    && f.InPlace'(w)
    && f.inode == f.fd.value
    && w.inodes[f.inode] == Inode(Regular, bytes, mode, owner, group, 1)
    && bytes != []
  }

  ghost predicate At(o: Rest, dir: nat, path: string) { dir in o.folders && o.folders[dir].path == path }

  /** What a truthful print says about the loaded job. */
  ghost predicate PrintTruth(o: Option<CommandOutput>, slot: Option<Job>) {
    && (o.Some? && SaysAbsent(o.value) ==> slot.None?)
    && forall j: JobRecord | j.jobLabel == FIXED_LABEL && o.Some? && PrintsJob(o.value, j) ::
         slot.Some? && Alike(slot.value.record, j)
  }

  /** What an obliging print shows of an empty slot and of the expected job. */
  ghost predicate PrintShows(o: Option<CommandOutput>, slot: Option<Job>, j: JobRecord) {
    && (slot.None? ==> o.Some? && SaysAbsent(o.value))
    && (slot.Some? && slot.value.record == j ==>
          o.Some? && PrintsJob(o.value, j) && (slot.value.running ==> exists p :: PrintsRunning(o.value, j, p)))
  }

  class NativeWiring {
    const expected: JobRecord
    const reviewed: Reviewed
    var binary: OwnedFile?
    var plist: OwnedFile?
    var bound: bool
    var verifiedPid: nat

    constructor (expected: JobRecord, reviewed: Reviewed)
      requires Ownership.ValidRecord(expected)
      ensures !bound && binary == null && plist == null && verifiedPid == 0
      ensures this.expected == expected && this.reviewed == reviewed
    {
      this.expected, this.reviewed := expected, reviewed;
      binary, plist, bound, verifiedPid := null, null, false, 0;
    }

    ghost predicate Valid(h: Host) reads this, h, binary, plist {
      && h.Valid() && Gated(h.log, reviewed, expected) && Ownership.ValidRecord(expected)
      && (bound ==> binary != null && plist != null && Has(h.log, BindArtifacts(true)))
      && (binary != null ==> binary.Valid(h)) && (plist != null ==> plist.Valid(h))
    }

    ghost predicate FilesAsReviewed(w: World) reads this, binary, plist {
      && binary != null && AsReviewed(w, binary, reviewed.binary, Lifecycle.BINARY_MODE, reviewed.owner, reviewed.group)
      && plist != null && AsReviewed(w, plist, reviewed.plist, Lifecycle.PLIST_MODE, reviewed.owner, reviewed.group)
    }

    /** Both parents lie where they should, unless this is a test fixture. */
    ghost predicate PathsRight(o: Rest) reads this {
      reviewed.fixturePaths || (At(o, reviewed.binaryParent, BINARY_PARENT) &&
                                At(o, reviewed.plistParent, PLIST_PARENT))
    }

    /** Everything a check looks at is as it should be, and nobody else writes. */
    ghost predicate Undisturbed(h: Host) reads this, h, binary, plist {
      && h.quiet && h.sturdyFiles && bound && PathsRight(h.rest)
      && binary != null
      && binary.created
      && AsPublished(h.world, binary, reviewed.binary, Lifecycle.BINARY_MODE, reviewed.owner, reviewed.group)
      && plist != null
      && plist.created
      && AsPublished(h.world, plist, reviewed.plist, Lifecycle.PLIST_MODE, reviewed.owner, reviewed.group)
    }

    /** Nothing but looks since `l`, none of them a launchctl mutation. */
    ghost predicate OnlyLooked(l: Log, h: Host) reads this, h {
      Gated(h.log, reviewed, expected) && Mutations(h.log) == Mutations(l) && forall e :: Has(l, e) ==> Has(h.log, e)
    }

    ghost predicate GatedAt(l: Log) reads this { Gated(l, reviewed, expected) }

    /** One more look. */
    lemma LookedOnce(l: Log, h: Host)
      requires GatedAt(l) && h.log.Then? && h.log.past == l && !Mutates(h.log.last) && h.log.last != RunStarted
      ensures OnlyLooked(l, h)
    {
      hide Open, Mutates;
      GatedLook(l, reviewed, expected, h.log.last);
    }

    /** Both parents still lie where they should. */
    method ExactParentPaths(h: Host) returns (ok: bool)
      requires h.Valid() && GatedAt(h.log)
      modifies h`world, h`rest, h`still, h`log, h`mon
      ensures h.Looked() && h.mon == old(h.mon) && OnlyLooked(old(h.log), h)
      ensures ok ==> PathsChecked(h.log, reviewed)
      ensures h.quiet && ok ==> PathsRight(h.rest)
      ensures h.quiet && h.sturdyLooks && PathsRight(h.rest) ==> ok
    {
      hide Step, Watch, WellFormed, Host.Separate, Gated, Has, Mutates, BINARY_PARENT, PLIST_PARENT;
      if reviewed.fixturePaths { return true; }
      ghost var l := h.log;
      var path := h.PathOf(reviewed.binaryParent);
      NoCommandLooks(l, h.log.last);
      LookedOnce(l, h);
      if path != Some(BINARY_PARENT) { return false; }
      ghost var l1 := h.log;
      path := h.PathOf(reviewed.plistParent);
      NoCommandLooks(l1, h.log.last);
      LookedOnce(l1, h);
      ok := path == Some(PLIST_PARENT);
    }

    lemma StillHas(l: Log, e: Event, x: Event)
      requires Has(l, x) && e != RunStarted
      ensures Has(Then(l, e), x)
    {
    }

    lemma NoCommandLooks(l: Log, e: Event)
      requires !e.RunCommand?
      ensures !Mutates(e)
    {
    }

    /** One of the two files. */
    method CheckFile(h: Host, f: OwnedFile, other: OwnedFile, bytes: seq<Byte>, mode: nat) returns (ok: bool)
      requires h.Valid() && GatedAt(h.log) && f.Valid(h) && other.Valid(h) && mode <= 0x1ff
      modifies h`world, h`rest, h`still, h`interrupts, h`log, h`mon
      ensures h.Looked() && f.Valid(h) && other.Valid(h) && h.mon == old(h.mon) && OnlyLooked(old(h.log), h)
      ensures ok ==> Checked(h.log, bytes, mode, reviewed.owner, reviewed.group) && h.log.past == old(h.log)
      ensures ok && h.exclusive ==> AsReviewed(h.world, f, bytes, mode, reviewed.owner, reviewed.group)
      ensures h.exclusive && h.sturdyFiles && f.created &&
              AsPublished(h.world, f, bytes, mode, reviewed.owner, reviewed.group) ==>
                ok
    {
      hide Step, Watch, WellFormed, Host.Separate, Gated, Has, Mutates;
      ghost var l := h.log;
      var r := f.Verify(h, bytes, mode, reviewed.owner, reviewed.group);
      ok := r == Ok;
      if !ok { return; }
      KnowsFile(l, f.Path(), f.inode);
      NoCommandLooks(l, h.log.last);
      LookedOnce(l, h);
    }

    /** Both files, the binary first. */
    method CheckFiles(h: Host, binary: OwnedFile, plist: OwnedFile) returns (ok: bool)
      requires h.Valid() && GatedAt(h.log) && binary.Valid(h) && plist.Valid(h) && PathsChecked(h.log, reviewed)
      modifies h`world, h`rest, h`still, h`interrupts, h`log, h`mon
      ensures h.Looked() && binary.Valid(h) && plist.Valid(h) && h.mon == old(h.mon) && OnlyLooked(old(h.log), h)
      ensures ok ==> FilesChecked(h.log, reviewed)
      ensures ok && h.exclusive ==>
                && AsReviewed(h.world, binary, reviewed.binary, Lifecycle.BINARY_MODE, reviewed.owner, reviewed.group)
                && AsReviewed(h.world, plist, reviewed.plist, Lifecycle.PLIST_MODE,
                              reviewed.owner, reviewed.group)
      ensures h.exclusive && h.sturdyFiles && binary.created && plist.created &&
              AsPublished(h.world, binary, reviewed.binary, Lifecycle.BINARY_MODE, reviewed.owner, reviewed.group) &&
              AsPublished(h.world, plist, reviewed.plist, Lifecycle.PLIST_MODE, reviewed.owner, reviewed.group) ==>
                ok
    {
      hide Step, Watch, WellFormed, Host.Separate, Gated, Has, Mutates, Checked, AsReviewed, AsPublished, PathsChecked;
      ok := CheckFile(h, binary, plist, reviewed.binary, Lifecycle.BINARY_MODE);
      if !ok { return; }
      ok := CheckFile(h, plist, binary, reviewed.plist, Lifecycle.PLIST_MODE);
    }

    /** The artifact callback of every launchctl command. */
    method VerifyArtifacts(h: Host, identity: JobRecord) returns (ok: bool)
      requires Valid(h)
      modifies h`world, h`rest, h`still, h`interrupts, h`log, h`mon
      ensures Valid(h) && h.Looked() && h.mon == old(h.mon) && OnlyLooked(old(h.log), h)
      ensures ok ==> bound && identity == expected && BothChecked(h.log, reviewed)
      ensures ok && h.exclusive ==> FilesAsReviewed(h.world)
      ensures ok && h.quiet ==> PathsRight(h.rest)
      ensures identity == expected && Undisturbed(h) ==> ok
    {
      hide Step, Watch, WellFormed, Host.Separate, Gated, Has, Mutates, FilesChecked, AsReviewed, AsPublished,
        PathsChecked, Ownership.ValidRecord;
      if !bound || identity != expected { return false; }
      ok := ExactParentPaths(h);
      if !ok { return; }
      ok := CheckFiles(h, binary, plist);
    }

    /** The controller's binder: both files must be owned and verify at once, or nothing stays bound. */
    method Bind(h: Host, b: OwnedFile, p: OwnedFile) returns (ok: bool)
      requires Valid(h) && b.Valid(h) && p.Valid(h)
      modifies this, h`world, h`rest, h`still, h`interrupts, h`log, h`mon
      ensures Valid(h) && b.Valid(h) && p.Valid(h) && h.Looked() && Mutations(h.log) == Mutations(old(h.log))
      ensures old(bound) ==> !ok && unchanged(this) && h.log == old(h.log)
      ensures ok ==> && bound && binary == b && plist == p && b.created && p.created
                     && h.log.Then? && h.log.last == BindArtifacts(true) && FilesChecked(h.log.past, reviewed)
      ensures ok && h.exclusive ==> FilesAsReviewed(h.world)
      ensures ok && h.quiet ==> PathsRight(h.rest)
      // a binder that has looked and refused leaves nothing bound
      ensures !ok ==> if old(bound) || !b.created || !p.created then unchanged(this)
                      else !bound && binary == null && plist == null
      ensures verifiedPid == old(verifiedPid)
      ensures h.quiet && h.sturdyFiles && !old(bound) && b.created && p.created && PathsRight(h.rest) &&
              AsPublished(h.world, b, reviewed.binary, Lifecycle.BINARY_MODE, reviewed.owner, reviewed.group) &&
              AsPublished(h.world, p, reviewed.plist, Lifecycle.PLIST_MODE, reviewed.owner, reviewed.group) ==>
                ok
    {
      hide Step, Watch, WellFormed, Host.Separate, Gated, Mutates, FilesChecked, AsReviewed, AsPublished, PathsChecked,
        Ownership.ValidRecord, Placed;
      if bound || !b.created || !p.created { return false; }
      ok := ExactParentPaths(h);
      if ok { ok := CheckFiles(h, b, p); }
      if !ok {
        binary, plist := null, null;
        return;
      }
      binary, plist := b, p;
      ghost var l := h.log;
      PlacedKeeps(h.mon, 3);
      StepBound(h.mon, h.log, true);
      h.Note(BindArtifacts(true));
      NoCommandLooks(l, BindArtifacts(true));
      LookedOnce(l, h);
      bound := true;
    }

    /** One print: it may fail or say anything, unless launchd is truthful. */
    method RunPrint(h: Host) returns (o: Option<CommandOutput>)
      requires Valid(h)
      modifies h`world, h`rest, h`still, h`log, h`mon
      ensures Valid(h) && h.Looked() && h.mon == old(h.mon) && OnlyLooked(old(h.log), h)
      ensures h.log == Then(old(h.log), RunCommand(PRINT, o))
      ensures h.truthful ==> PrintTruth(o, h.JobSlot())
      ensures h.truthful && (h.obligingLaunchd || h.balkingLaunchd) ==> PrintShows(o, h.JobSlot(), expected)
    {
      hide Step, Watch, WellFormed, Host.Separate, Gated, Has, Mutates, PRINT, AsReviewed, PrintTruth, PrintShows,
        FIXED_LABEL, Ownership.ValidRecord;
      h.Interfere();
      o := *;
      if h.truthful { o := SayTruth(o, h.JobSlot(), expected, h.obligingLaunchd || h.balkingLaunchd); }
      ghost var l := h.log;
      h.Look(RunCommand(PRINT, o));
      PrintLooks(o);
      LookedOnce(l, h);
    }

    /**
      One mutation: it may fail, say anything and do anything to the job's slot. It is issued only at an open gate
      and, while others leave the files alone, with both as reviewed.
     */
    method RunLaunchctl(h: Host, args: seq<string>)
      returns (o: Option<CommandOutput>, ghost hit: Option<Job>, ghost kept: bool)
      requires Valid(h) && bound && Open(h.log, reviewed, expected, args) && (h.exclusive ==> FilesAsReviewed(h.world))
      requires |args| > 1
      modifies h`world, h`rest, h`still, h`log, h`mon
      ensures Valid(h) && h.JobDeed(expected) && h.mon == old(h.mon)
      ensures h.log == Then(old(h.log), RunCommand(args, o)) && Mutations(h.log) == Mutations(old(h.log)) + 1
      ensures (kept ==> old(h.still) && hit == old(h.JobSlot())) && (h.exclusive ==> kept)
      ensures h.obligingLaunchd && args[1] == "bootstrap" ==>
                Silent(o) && h.JobSlot() == Some(Job(expected, false)) && FIXED_LABEL in h.world.machs
      ensures h.obligingLaunchd && h.exclusive && args[1] != "bootstrap" && old(h.JobSlot()).Some? &&
              old(h.JobSlot()).value.record == expected ==>
                Silent(o) && h.world == Effect(old(h.world), args[1], expected)
    {
      hide Step, Watch, WellFormed, Host.Separate, Gated, Has, Mutates, AsReviewed, Open, FIXED_LABEL,
        Ownership.ValidRecord, JobSlotOnly, Effect, FilesAsReviewed;
      o, hit, kept := Act(h, args[1]);
      GatedCommand(h.log, reviewed, expected, args, o);
      StillHas(h.log, RunCommand(args, o), BindArtifacts(true));
      h.Look(RunCommand(args, o));
    }

    /** What a mutation does to the job's slot, whatever that holds by then. */
    method Act(h: Host, word: string) returns (o: Option<CommandOutput>, ghost hit: Option<Job>, ghost kept: bool)
      requires h.Valid() && Ownership.ValidRecord(expected)
      modifies h`world, h`rest, h`still
      ensures h.JobDeed(expected)
      ensures (kept ==> old(h.still) && hit == old(h.JobSlot())) && (h.exclusive ==> kept)
      ensures h.obligingLaunchd && word == "bootstrap" ==>
                Silent(o) && h.JobSlot() == Some(Job(expected, false)) && FIXED_LABEL in h.world.machs
      ensures h.obligingLaunchd && h.exclusive && word != "bootstrap" && old(h.JobSlot()).Some? &&
              old(h.JobSlot()).value.record == expected ==>
                Silent(o) && h.world == Effect(old(h.world), word, expected)
    {
      hide Step, Watch, FIXED_LABEL;
      h.Interfere();
      hit, kept := h.JobSlot(), h.still;
      Ownership.FixedNames(expected);
      hide Ownership.ValidRecord;
      if h.obligingLaunchd && (word == "bootstrap" || (h.JobSlot().Some? && h.JobSlot().value.record == expected)) {
        o := Some(CommandOutput(true, 0, false, "", ""));
        h.world := Effect(h.world, word, expected);
      } else {
        o := *;
        h.DisturbJob(expected);
      }
    }

    /** Verify the files, print the job; what is loaded has then been read afresh. */
    method PrintJob(h: Host) returns (o: Option<CommandOutput>, ghost printed: bool)
      requires Valid(h)
      modifies h`world, h`rest, h`still, h`interrupts, h`log, h`mon
      ensures Valid(h) && h.Glanced() && h.mon == old(h.mon) && OnlyLooked(old(h.log), h)
      ensures !printed ==> o.None?
      ensures printed ==> && bound && h.still && (h.exclusive ==> FilesAsReviewed(h.world))
                          && h.log.Then?
                          && h.log.last == RunCommand(PRINT, o)
                          && BothChecked(h.log.past, reviewed)
      ensures printed && h.truthful ==> PrintTruth(o, h.JobSlot())
      ensures Undisturbed(h) ==> printed
      ensures printed && h.truthful && h.obligingLaunchd ==> PrintShows(o, h.JobSlot(), expected)
    {
      hide Step, Watch, WellFormed, Host.Separate, Gated, Has, Mutates, PRINT, BothChecked, AsReviewed, AsPublished,
        Ownership.ValidRecord, PrintTruth, PrintShows;
      var ok := VerifyArtifacts(h, expected);
      if !ok { return None, false; }
      o := RunPrint(h);
      h.still := true;
      printed := true;
    }

    /**
     How a command that starts something went. No answer ever claims that nothing happened, and none is an error once
     a command may have run.
     */
    twostate predicate Started(h: Host, record: JobRecord, args: seq<string>, a: Answer, issued: bool,
                               new o: Option<CommandOutput>)
      reads this, h
    {
      && a != NoEffect && (a == Error <==> record != expected) && (a == Ok <==> issued && Silent(o))
      && (a == Error ==> !issued && h.log == old(h.log) && h.world == old(h.world))
      && Mutations(h.log) == Mutations(old(h.log)) + (if issued then 1 else 0)
      && (issued ==> h.log.Then? && h.log.last == RunCommand(args, o) && BothChecked(h.log.past, reviewed))
    }

    /** A command that starts something, behind the check of both files. */
    method Start(h: Host, record: JobRecord, args: seq<string>)
      returns (a: Answer, ghost issued: bool, ghost o: Option<CommandOutput>)
      requires Valid(h) && Starts(args) && |args| > 1
      modifies h`world, h`rest, h`still, h`interrupts, h`log, h`mon
      ensures Valid(h) && h.JobDeed(expected) && h.mon == old(h.mon)
      ensures Started(h, record, args, a, issued, o) && (!issued ==> h.Looked())
      ensures h.obligingLaunchd && record == expected && old(Undisturbed(h)) && args[1] == "bootstrap" ==>
                a == Ok && h.JobSlot() == Some(Job(expected, false)) && FIXED_LABEL in h.world.machs
      ensures h.obligingLaunchd && record == expected && old(Undisturbed(h)) && args[1] != "bootstrap" &&
              old(h.JobSlot()).Some? && old(h.JobSlot()).value.record == expected ==>
                a == Ok && h.world == Effect(old(h.world), args[1], expected)
    {
      hide Step, Watch, WellFormed, Host.Separate, Gated, Has, Mutates, Starts, Ends, BothChecked, Shown, AsReviewed,
        AsPublished, Ownership.ValidRecord, FIXED_LABEL, JobSlotOnly, Effect;
      issued, o := false, None;
      JobSlotSame(h.world, expected);
      if record != expected { return Error, issued, o; }
      var ok := VerifyArtifacts(h, record);
      if !ok { return Ambiguous, issued, o; }
      ghost var hit, kept;
      var out;
      out, hit, kept := RunLaunchctl(h, args);
      issued, o := true, out;
      a := if Silent(out) then Ok else Ambiguous;
    }

    /** The bootstrap callback. */
    method Bootstrap(h: Host, record: JobRecord)
      returns (a: Answer, ghost issued: bool, ghost o: Option<CommandOutput>)
      requires Valid(h)
      modifies h`world, h`rest, h`still, h`interrupts, h`log, h`mon
      ensures Valid(h) && h.JobDeed(expected) && h.mon == old(h.mon)
      ensures Started(h, record, ["/bin/launchctl", "bootstrap", "system", PLIST_PATH], a, issued, o)
      ensures !issued ==> h.Looked()
      // what the job layer relies on
      ensures h.obligingLaunchd && record == expected && old(Undisturbed(h)) ==>
                a == Ok && h.JobSlot() == Some(Job(expected, false)) && FIXED_LABEL in h.world.machs
    {
      hide Valid, Host.JobDeed, Undisturbed, Started, PLIST_PATH, FIXED_LABEL;
      a, issued, o := Start(h, record, [LAUNCHCTL, "bootstrap", "system", PLIST_PATH]);
    }

    /** The activation callback. */
    method Activate(h: Host, record: JobRecord)
      returns (a: Answer, ghost issued: bool, ghost o: Option<CommandOutput>)
      requires Valid(h)
      modifies h`world, h`rest, h`still, h`interrupts, h`log, h`mon
      ensures Valid(h) && h.JobDeed(expected) && h.mon == old(h.mon)
      ensures Started(h, record, ["/bin/launchctl", "kickstart", TARGET], a, issued, o)
      ensures !issued ==> h.Looked()
      // what the job layer relies on: the loaded job now runs
      ensures h.obligingLaunchd && record == expected && old(Undisturbed(h)) &&
              old(h.JobSlot()).Some? && old(h.JobSlot()).value.record == expected ==>
                a == Ok && h.world == old(h.world).(jobs := old(h.world).jobs[expected.jobLabel := Job(expected, true)])
    {
      hide Valid, Host.JobDeed, Undisturbed, Started, TARGET, FIXED_LABEL;
      a, issued, o := Start(h, record, [LAUNCHCTL, "kickstart", TARGET]);
    }

    /**
      How a command that ends something went: only after a print that shows the expected job, itself behind verified
      files. On a truthful host what the command finds is the job just printed, unless somebody came between.
     */
    twostate predicate Finished(h: Host, record: JobRecord, args: seq<string>, a: Answer, d: Ending)
      reads this, h
    {
      && a != NoEffect && (a == Error <==> record != expected) && (a == Ok <==> d.issued && Silent(d.output))
      && (a == Error ==> !d.issued && h.log == old(h.log) && h.world == old(h.world))
      && Mutations(h.log) == Mutations(old(h.log)) + (if d.issued then 1 else 0)
      && (d.issued <==> d.shown.Some? && PrintsJob(d.shown.value, expected))
      && (d.issued ==> && h.log.Then? && h.log.last == RunCommand(args, d.output)
                       && Shown(h.log.past, reviewed, expected) && h.log.past.last.output == d.shown)
      && (!d.issued ==> d.hit.None?)
      && (h.truthful && d.issued && d.kept && d.hit.Some? ==> Alike(d.hit.value.record, expected))
      && (h.exclusive ==> d.kept)
    }

    method Finish(h: Host, record: JobRecord, args: seq<string>) returns (a: Answer, ghost d: Ending)
      requires Valid(h) && Ends(args) && |args| > 1
      modifies h`world, h`rest, h`still, h`interrupts, h`log, h`mon
      ensures Valid(h) && h.JobDeed(expected) && h.mon == old(h.mon)
      ensures Finished(h, record, args, a, d) && (!d.issued ==> h.Glanced())
      ensures h.truthful && h.obligingLaunchd && record == expected && old(Undisturbed(h)) &&
              old(h.JobSlot()).Some? && old(h.JobSlot()).value.record == expected && args[1] != "bootstrap" ==>
                a == Ok && h.world == Effect(old(h.world), args[1], expected)
    {
      hide Step, Watch, WellFormed, Host.Separate, Gated, Has, Mutates, Starts, Ends, PRINT, BothChecked, AsReviewed,
        AsPublished, Ownership.ValidRecord, FIXED_LABEL, JobSlotOnly, PrintsJob, Effect;
      d := Ending(false, None, None, None, true);
      JobSlotSame(h.world, expected);
      if record != expected { return Error, d; }
      var o;
      ghost var printed;
      o, printed := PrintJob(h);
      d := Ending(false, o, None, None, true);
      if o.None? { return Ambiguous, d; }
      var loaded := ParsedLoadedJob(o.value, expected);
      if !loaded { return Ambiguous, d; }
      ghost var slot := h.JobSlot();
      if h.truthful { ShownAlike(o, slot, expected); }
      var out;
      ghost var hit, kept;
      out, hit, kept := RunLaunchctl(h, args);
      d := Ending(true, o, out, hit, kept);
      a := if Silent(out) then Ok else Ambiguous;
    }

    /** The stop callback. */
    method StopProcess(h: Host, record: JobRecord) returns (a: Answer, ghost d: Ending)
      requires Valid(h)
      modifies h`world, h`rest, h`still, h`interrupts, h`log, h`mon
      ensures Valid(h) && h.JobDeed(expected) && h.mon == old(h.mon)
      ensures Finished(h, record, ["/bin/launchctl", "kill", "SIGTERM", TARGET], a, d)
      ensures !d.issued ==> h.Glanced()
      // what the job layer relies on: the job stays, and its process is gone
      ensures h.truthful && h.obligingLaunchd && record == expected && old(Undisturbed(h)) &&
              old(h.JobSlot()).Some? && old(h.JobSlot()).value.record == expected ==>
                && a == Ok
                && h.world == old(h.world).(jobs := old(h.world).jobs[expected.jobLabel := Job(expected, false)])
    {
      hide Valid, Host.JobDeed, Undisturbed, Finished, TARGET, FIXED_LABEL;
      a, d := Finish(h, record, [LAUNCHCTL, "kill", "SIGTERM", TARGET]);
    }

    /** The bootout callback. */
    method Bootout(h: Host, record: JobRecord) returns (a: Answer, ghost d: Ending)
      requires Valid(h)
      modifies h`world, h`rest, h`still, h`interrupts, h`log, h`mon
      ensures Valid(h) && h.JobDeed(expected) && h.mon == old(h.mon)
      ensures Finished(h, record, ["/bin/launchctl", "bootout", TARGET], a, d)
      ensures !d.issued ==> h.Glanced()
      // what the job layer relies on: the job and its Mach name are gone
      ensures h.truthful && h.obligingLaunchd && record == expected && old(Undisturbed(h)) &&
              old(h.JobSlot()).Some? && old(h.JobSlot()).value.record == expected ==>
                && a == Ok
                && h.world == old(h.world).(jobs := old(h.world).jobs - {expected.jobLabel},
                                            machs := old(h.world).machs - {expected.machService})
    {
      hide Valid, Host.JobDeed, Undisturbed, Finished, TARGET, FIXED_LABEL;
      a, d := Finish(h, record, [LAUNCHCTL, "bootout", TARGET]);
    }

    /** The probe reports absence only for launchctl's one not-found answer, presence only for the expected job. */
    method ProbeLabel(h: Host, jobLabel: string) returns (p: Probe, ghost o: Option<CommandOutput>)
      requires Valid(h)
      modifies h`world, h`rest, h`still, h`log, h`mon
      ensures Valid(h) && h.Looked() && h.mon == old(h.mon) && OnlyLooked(old(h.log), h)
      ensures jobLabel != FIXED_LABEL ==> p == ProbeError && h.log == old(h.log)
      ensures jobLabel == FIXED_LABEL ==> h.log == Then(old(h.log), RunCommand(PRINT, o))
      ensures p == Absent <==> jobLabel == FIXED_LABEL && o.Some? && SaysAbsent(o.value)
      ensures p == Present <==> jobLabel == FIXED_LABEL && o.Some? && PrintsJob(o.value, expected)
      // what the job layer relies on, as long as no other job is loaded under the label
      ensures jobLabel == FIXED_LABEL ==>
                h.Answers(p, FIXED_LABEL in h.world.jobs,
                          (h.obligingLaunchd || h.balkingLaunchd) &&
                          (h.JobSlot().Some? ==> h.JobSlot().value.record == expected))
    {
      hide Step, Watch, WellFormed, Host.Separate, Gated, Has, Mutates, PRINT, AsReviewed, FIXED_LABEL,
        ABSENT_STDERR, PrintsJob;
      o := None;
      if jobLabel != FIXED_LABEL { return ProbeError, o; }
      Ownership.FixedNames(expected);
      hide Ownership.ValidRecord;
      var out := RunPrint(h);
      o := out;
      if out.None? { return ProbeError, o; }
      AbsentIsNoJob(out.value, expected);
      if CleanExit(out.value, 113) && out.value.stdout == "" && out.value.stderr == ABSENT_STDERR { return Absent, o; }
      var loaded := ParsedLoadedJob(out.value, expected);
      p := if loaded then Present else ProbeError;
    }

    /** The probe for the Mach name reads all of `launchctl print system`; see `MachPresence`. */
    method ProbeMachService(h: Host, mach: string) returns (p: Probe, ghost events: seq<Mach.Event>, ghost clean: bool)
      requires Valid(h)
      modifies h`world, h`rest, h`still
      ensures Valid(h) && h.Looked() && h.log == old(h.log) && h.mon == old(h.mon)
      ensures mach != FIXED_LABEL ==> p == ProbeError
      ensures mach == FIXED_LABEL ==>
                p == if clean && Mach.Undisturbed(events) then Mach.Verdict(Mach.Snapshot(events), mach) else ProbeError
      ensures mach == FIXED_LABEL ==> h.Answers(p, FIXED_LABEL in h.world.machs, false)
    {
      hide Step, Watch, WellFormed, Host.Separate, Gated, Has, FIXED_LABEL, Ownership.ValidRecord, Mach.Undisturbed,
        Mach.Verdict, Mach.Snapshot;
      events, clean := [], false;
      if mach != FIXED_LABEL { return ProbeError, events, clean; }
      h.Interfere();
      var es: seq<Mach.Event>, ended: bool := *, *;
      es := Mach.Reads(es);
      p := Mach.CollectPresence(mach, es, ended);
      // a truthful system prints its endpoints as they are, or fails
      if h.truthful && p != (if FIXED_LABEL in h.world.machs then Present else Absent) {
        ended := false;
        p := Mach.CollectPresence(mach, es, ended);
      }
      events, clean := es, ended;
    }

    /** The record read back is the expected one, exactly when a gated print shows it. */
    method ReadLoaded(h: Host, jobLabel: string) returns (r: Option<JobRecord>, ghost o: Option<CommandOutput>)
      requires Valid(h)
      modifies h`world, h`rest, h`still, h`interrupts, h`log, h`mon
      ensures Valid(h) && h.Glanced() && h.mon == old(h.mon) && OnlyLooked(old(h.log), h)
      ensures r == if jobLabel == FIXED_LABEL && o.Some? && PrintsJob(o.value, expected) then Some(expected) else None
      ensures o.Some? ==>
                && h.log.Then? && h.log.last == RunCommand(PRINT, o) && BothChecked(h.log.past, reviewed)
                && h.still && (h.exclusive ==> FilesAsReviewed(h.world))
      // what the job layer relies on
      ensures h.truthful && r.Some? ==> h.JobSlot().Some? && Alike(h.JobSlot().value.record, r.value)
      ensures h.truthful && h.obligingLaunchd && Undisturbed(h) && jobLabel == FIXED_LABEL &&
              h.JobSlot().Some? && h.JobSlot().value.record == expected ==>
                r == Some(expected)
    {
      hide Step, Watch, WellFormed, Host.Separate, Gated, Has, Mutates, PRINT, BothChecked, AsReviewed, AsPublished,
        FIXED_LABEL, Ownership.ValidRecord, PrintsJob;
      if jobLabel != FIXED_LABEL { return None, None; }
      var out;
      ghost var printed;
      out, printed := PrintJob(h);
      o := out;
      if out.None? { return None, o; }
      var loaded := ParsedLoadedJob(out.value, expected);
      r := if loaded then Some(expected) else None;
      if h.truthful && loaded { ShownAlike(o, h.JobSlot(), expected); }
    }

    /** A running process is remembered by its pid; any failure forgets the last one. */
    method VerifyProcess(h: Host, record: JobRecord) returns (ok: bool, ghost o: Option<CommandOutput>)
      requires Valid(h)
      modifies this`verifiedPid, h`world, h`rest, h`still, h`interrupts, h`log, h`mon
      ensures Valid(h) && h.Glanced() && h.mon == old(h.mon) && OnlyLooked(old(h.log), h)
      ensures record != expected ==> !ok && unchanged(this) && h.log == old(h.log)
      ensures ok ==> && record == expected && o.Some? && PrintsRunning(o.value, expected, verifiedPid)
                     && h.log.Then?
                     && h.log.last == RunCommand(PRINT, o)
                     && BothChecked(h.log.past, reviewed)
      ensures !ok && record == expected ==>
                verifiedPid == 0 && (o.Some? ==> forall p :: !PrintsRunning(o.value, expected, p))
      ensures h.truthful && ok ==> h.JobSlot().Some? && Alike(h.JobSlot().value.record, expected)
      ensures h.truthful && h.obligingLaunchd && Undisturbed(h) && record == expected &&
              h.JobSlot() == Some(Job(expected, true)) ==>
                ok
    {
      hide Step, Watch, WellFormed, Host.Separate, Gated, Has, Mutates, PRINT, BothChecked, AsReviewed, AsPublished,
        FIXED_LABEL, Ownership.ValidRecord, PrintsRunning, PrintsJob;
      ok, o := false, None;
      if record != expected { return; }
      var out;
      ghost var printed;
      out, printed := PrintJob(h);
      o := out;
      var pid: Option<nat> := None;
      if out.Some? { pid := ParsedRunningJob(out.value, expected); }
      verifiedPid := if pid.Some? then pid.value else 0;
      ok := pid.Some?;
      if h.truthful && ok { RunningIsShown(out.value, expected, verifiedPid); ShownAlike(out, h.JobSlot(), expected); }
    }

    /** The denial probe is handed the pid just seen. */
    method ExerciseDenial(h: Host, record: JobRecord) returns (ok: bool)
      requires Valid(h)
      modifies this`verifiedPid, h`world, h`rest, h`still, h`interrupts, h`log, h`mon
      ensures Valid(h) && h.Glanced() && h.mon == old(h.mon) && OnlyLooked(old(h.log), h)
      ensures ok ==> DenialDone(h.log, true)
      ensures !ok ==> DenialDone(h.log, false) || record != expected || verifiedPid == 0
    {
      hide Step, Watch, WellFormed, Host.Separate, Gated, Has, Mutates, PRINT, BothChecked, AsReviewed, AsPublished,
        FIXED_LABEL, Ownership.ValidRecord, PrintsRunning;
      ghost var o;
      ok, o := VerifyProcess(h, record);
      if !ok { return; }
      ghost var l := h.log;
      h.Interfere();
      ok := *;
      h.Look(DenialProbed(record, verifiedPid, ok));
      NoCommandLooks(l, h.log.last);
      LookedOnce(l, h);
    }

    /** The last call was a denial probe of the one pid that a gated print, the call before it, had shown. */
    ghost predicate DenialDone(l: Log, ok: bool) reads this {
      && l.Then? && l.last == DenialProbed(expected, verifiedPid, ok)
      && l.past.Then? && l.past.last.RunCommand? && l.past.last.args == PRINT && l.past.last.output.Some?
      && PrintsRunning(l.past.last.output.value, expected, verifiedPid) && BothChecked(l.past.past, reviewed)
    }
  }

  /** How a kill or bootout went: issued or not, what print showed before, what came back, and what it found. */
  datatype Ending = Ending(issued: bool, shown: Option<CommandOutput>, output: Option<CommandOutput>,
                           hit: Option<Job>, kept: bool)

  /** What launchctl's words do to the expected job, when they do what they say. */
  function Effect(w: World, word: string, j: JobRecord): World {
    if word == "bootstrap" then w.(jobs := w.jobs[j.jobLabel := Job(j, false)], machs := w.machs + {j.machService})
    else if word == "kickstart" then w.(jobs := w.jobs[j.jobLabel := Job(j, true)])
    else if word == "kill" then w.(jobs := w.jobs[j.jobLabel := Job(j, false)])
    else if word == "bootout" then w.(jobs := w.jobs - {j.jobLabel}, machs := w.machs - {j.machService})
    else w
  }

  /** Any output, bent to the truth: a lie becomes a failure. */
  method SayTruth(any: Option<CommandOutput>, slot: Option<Job>, expected: JobRecord, obliging: bool)
    returns (o: Option<CommandOutput>)
    requires Ownership.ValidRecord(expected)
    ensures PrintTruth(o, slot)
    ensures obliging ==> PrintShows(o, slot, expected)
  {
    hide FIXED_LABEL, ABSENT_STDERR, PrintsJob, PrintsRunning;
    RecordIsPrintable(expected);
    Ownership.FixedNames(expected);
    hide Ownership.ValidRecord, Printable;
    o := any;
    if slot.None? {
      if obliging {
        o := Some(ABSENT_OUTPUT);
      } else if any.Some? {
        o := Some(any.value.(exitCode := if any.value.exitCode == 0 then 1 else any.value.exitCode));
      }
      if o.Some? { FailureIsNoJob(o.value); }
    } else {
      var seen := slot.value.record.(jobLabel := FIXED_LABEL);
      var ok := false;
      if any.Some? { ok := ParsedLoadedJob(any.value, seen); }
      if obliging && slot.value.record == expected {
        var pid: nat := *;
        if !PidInRange(pid) { pid := 2; }
        var pad: string := *;
        if !Padding(pad) { pad := "\t"; }
        var left, right := (_: nat) => pad, (_: nat) => "";
        o := Some(PrintedJob(expected, if slot.value.running then Some(pid) else None, left, right));
        PrintedJobPrints(expected, if slot.value.running then Some(pid) else None, left, right);
      } else if any.Some? && !ok {
        o := Some(any.value.(exitCode := 1));
        FailureIsNoJob(o.value);
      }
      if o.Some? {
        PrintIsOf(o.value, seen);
        AbsentIsNoJob(o.value, seen);
      }
    }
  }

  lemma FailureIsNoJob(o: CommandOutput)
    ensures o.exitCode != 0 ==> forall j: JobRecord :: !PrintsJob(o, j)
  {
  }

  /** A print of the job that is loaded is not one of another. */
  lemma PrintIsOf(o: CommandOutput, j: JobRecord)
    requires j.jobLabel == FIXED_LABEL
    ensures PrintsJob(o, j) ==> forall k: JobRecord | k.jobLabel == FIXED_LABEL && PrintsJob(o, k) :: Alike(j, k)
  {
    hide PrintsJob;
    forall k: JobRecord | k.jobLabel == FIXED_LABEL && PrintsJob(o, k) && PrintsJob(o, j) ensures Alike(j, k) {
      PrintsOneJob(o, j, k);
    }
  }

  lemma AbsentIsNoJob(o: CommandOutput, j: JobRecord)
    ensures SaysAbsent(o) ==> !PrintsJob(o, j)
  {
  }

  lemma ShownAlike(o: Option<CommandOutput>, slot: Option<Job>, j: JobRecord)
    requires PrintTruth(o, slot) && o.Some? && PrintsJob(o.value, j) && Ownership.ValidRecord(j)
    ensures slot.Some? && Alike(slot.value.record, j)
  {
    hide PrintsJob;
    Ownership.FixedNames(j);
  }

  lemma RunningIsShown(o: CommandOutput, j: JobRecord, p: nat)
    requires PrintsRunning(o, j, p)
    ensures PrintsJob(o, j) && PidInRange(p)
  {
  }

  /**
    A print cannot tell apart jobs that differ only in what it does not show: the loaded record is read back as the
    expected one exactly if program and user agree, whatever its digests, its Mach name and its start policy are.
   */
  lemma ReadBackIsPartial(loaded: JobRecord, expected: JobRecord, pid: Option<nat>, left: nat -> string,
                          right: nat -> string)
    requires && Ownership.ValidRecord(expected)
             && loaded.jobLabel == FIXED_LABEL
             && Printable(loaded)
             && (pid.Some? ==> PidInRange(pid.value))
             && Indents(left, right)
    ensures PrintsJob(PrintedJob(loaded, pid, left, right), expected) <==> Alike(loaded, expected)
  {
    hide PrintsJob, PrintedJob, Printable, FIXED_LABEL;
    Ownership.FixedNames(expected);
    hide Ownership.ValidRecord;
    PrintedJobPrints(loaded, pid, left, right);
    var o := PrintedJob(loaded, pid, left, right);
    if PrintsJob(o, expected) { PrintsOneJob(o, loaded, expected); }
    if Alike(loaded, expected) { PrintsAlike(o, loaded, expected); }
  }

  /** Any call the controller, or anyone else holding the callbacks, might make. */
  datatype Call =
    | CallBind | CallProbe(jobLabel: string) | CallMach(mach: string) | CallRead(readLabel: string)
    | CallBootstrap(boot: JobRecord) | CallActivate(start: JobRecord) | CallVerify(process: JobRecord)
    | CallDenial(denied: JobRecord) | CallStop(stop: JobRecord) | CallBootout(out: JobRecord)
    | CallUnlink(ofPlist: bool)

  /** What `Valid` says of the files stays true while one of them is removed. */
  method RemoveFile(h: Host, w: NativeWiring, f: OwnedFile, other: OwnedFile)
    requires w.Valid(h) && f.Valid(h) && other.Valid(h) && f != other
    requires && (w.binary == null || w.binary == f || w.binary == other)
             && (w.plist == null || w.plist == f || w.plist == other)
    modifies f`created, h`world, h`rest, h`still, h`unsynced, h`log, h`mon
    ensures w.Valid(h) && f.Valid(h) && other.Valid(h)
  {
    hide Step, Watch, WellFormed, Host.Separate, Gated, Mutates, Ownership.ValidRecord, Placed;
    ghost var l, m := h.log, h.mon;
    PlacedKeeps(m, 8);
    PlacedKeeps(m, 9);
    var r := f.Unlink(h);
    if h.log != l {
      w.NoCommandLooks(l, h.log.last);
      w.LookedOnce(l, h);
    }
  }

  method Perform(h: Host, w: NativeWiring, b: OwnedFile, p: OwnedFile, call: Call)
    requires && w.Valid(h)
             && b.Valid(h)
             && p.Valid(h)
             && b != p
             && (w.binary == null || w.binary == b)
             && (w.plist == null || w.plist == p)
    modifies w, b`created, p`created, h`world, h`rest, h`still, h`unsynced, h`interrupts, h`log, h`mon
    ensures && w.Valid(h)
            && b.Valid(h)
            && p.Valid(h)
            && (w.binary == null || w.binary == b)
            && (w.plist == null || w.plist == p)
  {
    hide Step, Watch, WellFormed, Host.Separate, Gated, Has, Mutates, PRINT, BothChecked, FilesChecked, AsReviewed,
      AsPublished, Shown, PrintTruth, Ownership.ValidRecord, PrintsRunning, PrintsJob, FIXED_LABEL, ABSENT_STDERR;
    match call {
      case CallBind => var _ := w.Bind(h, b, p);
      case CallProbe(l) => var _, _ := w.ProbeLabel(h, l);
      case CallMach(m) => var _, _, _ := w.ProbeMachService(h, m);
      case CallRead(l) => var _, _ := w.ReadLoaded(h, l);
      case CallBootstrap(j) => var _, _, _ := w.Bootstrap(h, j);
      case CallActivate(j) => var _, _, _ := w.Activate(h, j);
      case CallStop(j) => var _, _ := w.StopProcess(h, j);
      case CallBootout(j) => var _, _ := w.Bootout(h, j);
      case CallVerify(j) => var _, _ := w.VerifyProcess(h, j);
      case CallDenial(j) => var _ := w.ExerciseDenial(h, j);
      case CallUnlink(ofPlist) => if ofPlist { RemoveFile(h, w, p, b); } else { RemoveFile(h, w, b, p); }
    }
  }

  /**
    Whatever calls are made in whatever order, and whatever is answered or replaced in between, every launchctl
    mutation directly follows a check of both bound files and their parents, and a kill or bootout directly follows
    a print of the expected job behind such a check.
   */
  method AnyRun(h: Host, expected: JobRecord, reviewed: Reviewed, b: OwnedFile, p: OwnedFile, script: seq<Call>)
    requires && h.Valid()
             && Gated(h.log, reviewed, expected)
             && b.Valid(h)
             && p.Valid(h)
             && b != p
             && Ownership.ValidRecord(expected)
    modifies b`created, p`created, h`world, h`rest, h`still, h`unsynced, h`interrupts, h`log, h`mon
    ensures h.Valid() && Gated(h.log, reviewed, expected)
  {
    hide Step, Watch, WellFormed, Host.Separate, Gated, Has, Mutates, Ownership.ValidRecord;
    var w := new NativeWiring(expected, reviewed);
    for i := 0 to |script|
      invariant fresh(w) && w.Valid(h) && b.Valid(h) && p.Valid(h)
      invariant (w.binary == null || w.binary == b) && (w.plist == null || w.plist == p)
    {
      Perform(h, w, b, p, script[i]);
    }
  }

  /** The digests a job record can carry are those of some 32 bytes. */
  lemma Sha256TextIs(s: string)
    ensures Ownership.Sha256Text(s) <==> exists d: Digest :: Hex(d) == s
  {
    hide Hex, HexDigit, Value;
    if Ownership.Sha256Text(s) {
      var d: Digest := seq(DIGEST_BYTES, i requires 0 <= i < 32 => Value(s[2 * i]) * 16 + Value(s[2 * i + 1]));
      forall k | 0 <= k < 64 ensures Hex(d)[k] == s[k] {
        HexAt(d, k / 2);
        assert s[k / 2 * 2] in s && s[k / 2 * 2 + 1] in s;
        ValueBack(s[k / 2 * 2], s[k / 2 * 2 + 1]);
      }
      assert Hex(d) == s;
    }
    if d: Digest :| Hex(d) == s {
      forall k | 0 <= k < 64 ensures LowerHex(s[k]) {
        HexAt(d, k / 2);
        HexDigitLower(d[k / 2] / 16);
        HexDigitLower(d[k / 2] % 16);
      }
    }
  }

  predicate LowerHex(c: char) { '0' <= c <= '9' || 'a' <= c <= 'f' }

  lemma HexDigitLower(n: nat)
    requires n < 16
    ensures LowerHex(HexDigit(n))
  {
  }

  lemma ValueBack(high: char, low: char)
    requires LowerHex(high) && LowerHex(low)
    ensures var b := Value(high) * 16 + Value(low); HexDigit(b / 16) == high && HexDigit(b % 16) == low
  {
    var b := Value(high) * 16 + Value(low);
    assert b / 16 == Value(high) && b % 16 == Value(low);
  }

  function Value(c: char): (n: nat)
    ensures n < 16
  {
    if Nibble(c) < 0 then 0 else Nibble(c)
  }

  const UINT32_MAX: nat := 0xffff_ffff

  /** The digests of the very bytes at hand, provided they are the ones the job record carries. */
  method DeriveBindings(sha: seq<Byte> -> Digest, binary: seq<Byte>, plist: seq<Byte>, requirement: Digest,
                        job: JobRecord)
    returns (b: Option<Bindings>)
    ensures b.Some? <==>
            && |binary| <= UINT32_MAX
            && |plist| <= UINT32_MAX
            && job.binarySha256 == Hex(sha(binary))
            && job.plistSha256 == Hex(sha(plist))
    ensures b.Some? ==> b.value == Bindings(sha(binary), sha(plist), requirement)
  {
    if |binary| > UINT32_MAX || |plist| > UINT32_MAX { return None; }
    var derived := Bindings(sha(binary), sha(plist), requirement);
    var recordedBinary := ParseDigest(job.binarySha256);
    if recordedBinary.None? { return None; }
    var recordedPlist := ParseDigest(job.plistSha256);
    if recordedPlist.None? { return None; }
    if Hex(derived.binary) == Hex(recordedBinary.value) { HexInjective(derived.binary, recordedBinary.value); }
    if Hex(derived.plist) == Hex(recordedPlist.value) { HexInjective(derived.plist, recordedPlist.value); }
    b := if derived.binary == recordedBinary.value && derived.plist == recordedPlist.value then Some(derived) else None;
  }

  /**
    The authorized run: nothing is touched unless the peer sent one genuine receipt for exactly the bytes that will be
    installed, and then the whole lifecycle runs with all it promises.
   */
  method RunAuthorized(h: Host, q: Lifecycle.Request, sha: seq<Byte> -> Digest, requirement: Digest,
                       wiring: NativeWiring,
                       clock: Clock, up: Pipe, down: Pipe, ring: NonceRing, me: Runner, nonce: Nonce)
    returns (report: Lifecycle.Report, ghost at: nat)
    requires h.Valid() && q.Claimed(h) && clock.Valid() && up != down && Remembers(ring) && |nonce| == NONCE_BYTES
    requires forall s :: q.sha256Hex(s) == Hex(sha(s))
    modifies h`world, h`rest, h`still, h`unsynced, h`interrupts, h`log, h`mon, wiring`binary, wiring`plist,
             wiring`bound, clock, up`pending, down`pending, ring, ring.slots
    ensures h.Valid() && Remembers(ring)
    ensures (h.log != old(h.log) || h.world != old(h.world) || report != Lifecycle.BLANK_REPORT) ==>
              && !old(wiring.bound)
              && down.ended
              && Genuine(old(down.pending), me, nonce, Bindings(sha(q.binaryBytes), sha(q.plistBytes), requirement))
              && at < Expiry(old(down.pending)) <= at + MAX_LIFETIME && old(clock.now) <= at <= clock.now
              && nonce !in Recent(old(ring.accepted)) && ring.accepted == old(ring.accepted) + [nonce]
              && q.job.binarySha256 == Hex(sha(q.binaryBytes)) && q.job.plistSha256 == Hex(sha(q.plistBytes))
    ensures Lifecycle.Chain(report) && (Safe(old(h.log)) ==> Safe(h.log))
    ensures report != Lifecycle.BLANK_REPORT ==> Lifecycle.Happened(h.log, q, report)
    ensures h.exclusive ==> Lifecycle.Kept(old(h.world), h.world, h.truthful, q, report)
    // a wiring is good for one run at a time, and nothing stays bound after it
    ensures if old(wiring.bound) then unchanged(wiring) else !wiring.bound
    ensures report != Lifecycle.BLANK_REPORT ==> wiring.binary == null && wiring.plist == null
  {
    hide Safe, Genuine, Expiry, Lifecycle.Outside, Lifecycle.Happened, Lifecycle.Kept, Lifecycle.Traced, Recent,
      NonceRing.Valid, Watch, WellFormed, Host.Separate;
    report, at := Lifecycle.BLANK_REPORT, clock.now;
    Lifecycle.KeptSame(h.world, h.truthful, q);
    if wiring.bound { return; }
    var current := DeriveBindings(sha, q.binaryBytes, q.plistBytes, requirement, q.job);
    if current.None? { return; }
    var approved;
    approved, at := ReceiveApproval(clock, up, down, ring, me, nonce, current.value);
    if !approved { return; }
    report := Lifecycle.RunLifecycle(h, q);
    wiring.binary, wiring.plist, wiring.bound := null, null, false;
  }
}
