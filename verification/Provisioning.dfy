/** Publish one runner file, execute it through its descriptor, and remove it: a second client of the retained files. */
module Provisioning {
  import opened Basics
  import opened Records
  import opened Discipline
  import opened HostModel
  import opened RetainedFiles
  import opened Lifecycle

  const RUNNER_NAME := "de.frederikstadler" + ".bitwarden-agent" + "-credential-bridge" + ".lifecycle-runner"
  const MAX_RUNNER_BYTES: nat := 8 * 1024 * 1024

  datatype RunnerRequest = RunnerRequest(parent: nat, bytes: seq<Byte>, owner: nat, group: nat)
  {
    function RunnerKey(): Key { Key(parent, RUNNER_NAME) }
  }

  datatype RunnerReport = RunnerReport(
    preflightAbsent: bool, collisionPreserved: bool, published: bool,
    executionAttempted: bool, executionSucceeded: bool,
    cleanupAttempted: bool, cleanupComplete: bool, finalAbsence: bool, manualRecovery: bool)

  const BLANK_RUNNER_REPORT := RunnerReport(false, false, false, false, false, false, false, false, false)

  predicate TrustedParent(f: Folder, owner: nat) { SafeParent(f, owner) && !f.hasAcl }

  /** Here the parent must not have an access control list either. */
  lemma TrustedParentIs(f: Folder, owner: nat)
    ensures TrustedParent(f, owner) <==> f == Folder(true, owner, false, false, f.path)
  {
  }

  lemma RunnerNameIsValid()
    ensures ValidName(RUNNER_NAME)
  {
    hide Plain;
    PlainParts();
    PlainEndings();
    var a, b, c, d := "de.frederikstadler", ".bitwarden-agent", "-credential-bridge", ".lifecycle-runner";
    PlainJoined(a, b);
    PlainJoined(a + b, c);
    PlainJoined(a + b + c, d);
    PlainName(RUNNER_NAME);
  }

  method ValidRunnerRequest(h: Host, q: RunnerRequest) returns (ok: bool)
    requires h.Valid()
    modifies h`world, h`rest, h`still
    ensures h.Looked()
    ensures ok ==> 0 < |q.bytes| <= MAX_RUNNER_BYTES && q.parent in h.directories
    ensures ok ==> q.parent in h.rest.folders && TrustedParent(h.rest.folders[q.parent], q.owner)
    ensures h.quiet && h.sturdyLooks && 0 < |q.bytes| <= MAX_RUNNER_BYTES && q.parent in h.rest.folders &&
            TrustedParent(h.rest.folders[q.parent], q.owner) ==>
              ok
  {
    if |q.bytes| == 0 || |q.bytes| > MAX_RUNNER_BYTES { return false; }
    var f := h.StatFolder(q.parent);
    ok := f.Some? && TrustedParent(f.value, q.owner);
  }

  /** How often a file was executed. */
  function Executions(l: Log): nat {
    if l.Start? then 0 else Executions(l.past) + if l.last.Executed? then 1 else 0
  }

  /**
   The log of a run that executes: created, verified, verified once more, and then executed, as one and the same file.
   */
  function RunLog(l: Log, q: RunnerRequest, ino: nat, ok: bool): Log {
    var v := FileVerified(q.RunnerKey(), ino, q.bytes, BINARY_MODE, q.owner, q.group);
    Then(Then(Then(Then(l, Opened(q.RunnerKey(), ino)), v), v),
         Executed(q.RunnerKey(), ino, q.bytes, BINARY_MODE, q.owner, q.group, ok))
  }

  lemma RunLogExecutes(l: Log, q: RunnerRequest, ino: nat, ok: bool)
    ensures Executions(RunLog(l, q, ino, ok)) == Executions(l) + 1
  {
    var v := FileVerified(q.RunnerKey(), ino, q.bytes, BINARY_MODE, q.owner, q.group);
    var l1 := Then(l, Opened(q.RunnerKey(), ino));
    assert Executions(l1) == Executions(l);
    assert Executions(Then(l1, v)) == Executions(l1);
    assert Executions(Then(Then(l1, v), v)) == Executions(Then(l1, v));
  }

  /** Up to an execution the log holds none. */
  lemma NothingExecuted(l: Log, k: Key, ino: nat, v: Event)
    requires v.FileVerified?
    ensures Executions(Then(l, Opened(k, ino))) == Executions(l)
    ensures Executions(Then(Then(l, Opened(k, ino)), v)) == Executions(l)
  {
    assert Executions(Then(l, Opened(k, ino))) == Executions(l);
  }

  /** Run the file behind the retained descriptor: the outcome, and what others do meanwhile, is anything. */
  method Execute(h: Host, q: RunnerRequest, f: OwnedFile) returns (ok: bool)
    requires h.Valid() && Ours(h, f, q.RunnerKey()) && f.created
    requires && h.log.Then?
             && h.log.last == FileVerified(q.RunnerKey(), f.fd.value, q.bytes, BINARY_MODE, q.owner, q.group)
    modifies h`world, h`rest, h`still, h`log, h`mon
    ensures h.Looked() && h.mon == old(h.mon)
    ensures h.log == Then(old(h.log), Executed(q.RunnerKey(), f.fd.value, q.bytes, BINARY_MODE, q.owner, q.group, ok))
  {
    hide Step, Watch, Host.Separate, WellFormed, Host.Separate, RUNNER_NAME;
    h.Interfere();
    ok := *;
    StepExecuted(h.mon, h.log, q.RunnerKey(), f.fd.value, q.bytes, BINARY_MODE, q.owner, q.group, ok);
    h.Note(Executed(q.RunnerKey(), f.fd.value, q.bytes, BINARY_MODE, q.owner, q.group, ok));
  }

  /** Publish, verify once more, execute. */
  method PublishAndRun(h: Host, q: RunnerRequest, f: OwnedFile) returns (report: RunnerReport)
    requires && h.Valid()
             && 0 < |q.bytes| <= MAX_RUNNER_BYTES
             && Ours(h, f, q.RunnerKey())
             && f.fd.None?
             && q.RunnerKey() in h.keys
    modifies f, h`world, h`rest, h`still, h`unsynced, h`interrupts, h`log, h`mon
    ensures h.Valid() && Ours(h, f, q.RunnerKey()) && h.mon.safe == old(h.mon.safe)
    ensures h.world.held == old(h.world.held) + FdSet(f) && FdSet(f) !! old(h.world.held)
    ensures Stored(old(h.unsynced), h.unsynced, FdSet(f), Dirs(f), report.preflightAbsent)
    ensures report == BLANK_RUNNER_REPORT.(collisionPreserved := report.collisionPreserved,
                      preflightAbsent := report.preflightAbsent,
                      published := report.published, executionAttempted := report.published,
                      executionSucceeded := report.executionSucceeded)
    ensures && (report.executionSucceeded ==> report.published)
            && (report.published ==> report.preflightAbsent)
            && (report.preflightAbsent ==> f.created)
    ensures report.collisionPreserved ==> !f.created
    ensures report.published ==> f.created && h.log == RunLog(old(h.log), q, f.fd.value, report.executionSucceeded)
    ensures Executions(h.log) == Executions(old(h.log)) + if report.executionAttempted then 1 else 0
    ensures h.exclusive ==> Appeared(old(h.world), h.world, q.RunnerKey(), f)
    ensures h.exclusive && h.sturdyLooks && f.created ==> f.inode != 0
    ensures h.exclusive && f.created && f.inode != 0 ==> f.InPlace(h.world)
    ensures h.exclusive && h.sturdyFiles && q.RunnerKey() !in old(h.world).entries && q.parent in h.directories ==>
              report.published && !report.collisionPreserved
  {
    hide Step, Watch, Host.Separate, ValidName, RUNNER_NAME, FIXED_LABEL, Executions;
    RunnerNameIsValid();
    var r := f.Publish(h, q.parent, RUNNER_NAME, q.bytes, BINARY_MODE, q.owner, q.group);
    if f.created {
      NothingExecuted(old(h.log), q.RunnerKey(), f.fd.value,
                      FileVerified(q.RunnerKey(), f.fd.value, q.bytes, BINARY_MODE, q.owner, q.group));
      RunLogExecutes(old(h.log), q, f.fd.value, true);
      RunLogExecutes(old(h.log), q, f.fd.value, false);
    }
    if f.created { StepOpened(old(h.mon), old(h.log), q.RunnerKey(), f.fd.value); }
    report := BLANK_RUNNER_REPORT.(collisionPreserved := r == NoEffect, preflightAbsent := r == Ok);
    if r != Ok { return; }
    r := f.Verify(h, q.bytes, BINARY_MODE, q.owner, q.group);
    if r != Ok { return; }
    var ran := Execute(h, q, f);
    report := report.(published := true, executionAttempted := true, executionSucceeded := ran);
  }

  /** What was executed: some inode, created and verified twice just before; at most its removal followed. */
  ghost predicate Ran(l: Log, before: Log, q: RunnerRequest, ok: bool) {
    || (exists ino :: l == RunLog(before, q, ino, ok))
    || (l.Then? && l.last.Unlinked? && exists ino :: l.past == RunLog(before, q, ino, ok))
  }

  method PublishRunRemove(h: Host, q: RunnerRequest) returns (report: RunnerReport)
    requires h.Valid() && 0 < |q.bytes| <= MAX_RUNNER_BYTES && q.RunnerKey() in h.keys
    requires h.exclusive ==> q.RunnerKey() !in h.world.entries
    modifies h`world, h`rest, h`still, h`unsynced, h`interrupts, h`log, h`mon
    ensures h.Valid() && h.mon.safe == old(h.mon.safe) && h.world.held == old(h.world.held)
    ensures report.manualRecovery == (report.cleanupAttempted && !report.cleanupComplete)
    ensures (report.executionSucceeded ==> report.executionAttempted) && report.executionAttempted == report.published
    ensures (report.published ==> report.preflightAbsent) && (report.preflightAbsent ==> report.cleanupAttempted)
    ensures report.collisionPreserved ==> !report.cleanupAttempted && !report.executionAttempted
    ensures report.cleanupComplete ==> h.unsynced.folders <= old(h.unsynced).folders
    ensures report.cleanupComplete ==> report.finalAbsence
    ensures report.executionAttempted ==> Ran(h.log, old(h.log), q, report.executionSucceeded)
    ensures Executions(h.log) == Executions(old(h.log)) + if report.executionAttempted then 1 else 0
    ensures h.exclusive && !report.manualRecovery ==> h.world == old(h.world)
    ensures h.exclusive ==> h.world.entries - {q.RunnerKey()} == old(h.world).entries - {q.RunnerKey()}
    ensures h.exclusive && h.sturdyLooks ==> !report.manualRecovery
    ensures h.exclusive && h.sturdyFiles && q.parent in h.directories ==>
              report == BLANK_RUNNER_REPORT.(preflightAbsent := true, published := true, executionAttempted := true,
              executionSucceeded := report.executionSucceeded, cleanupAttempted := true,
              cleanupComplete := true, finalAbsence := true)
  {
    hide Step, Watch, Host.Separate, ValidName, RUNNER_NAME, FIXED_LABEL, WellFormed;
    ghost var w0 := h.world;
    var f := new OwnedFile();
    report := PublishAndRun(h, q, f);
    ghost var w1, fd := h.world, f.fd;
    var attempted := f.created;
    ghost var removed;
    var done: bool;
    done, removed := FileCleanup(h, f);
    if h.exclusive && attempted { Undone(w0, w1, h.world, q.RunnerKey(), fd.value, w1.inodes[fd.value], done); }
    var absent := ChildAbsent(h, q.RunnerKey());
    var complete := done && absent;
    report := report.(cleanupAttempted := attempted, cleanupComplete := complete, finalAbsence := absent,
                      manualRecovery := attempted && !complete);
  }

  method ProvisionRunCleanup(h: Host, q: RunnerRequest) returns (report: RunnerReport)
    requires h.Valid() && q.RunnerKey() in h.keys
    modifies h`world, h`rest, h`still, h`unsynced, h`interrupts, h`log, h`mon
    ensures h.Valid() && (Safe(old(h.log)) ==> Safe(h.log)) && h.world.held == old(h.world.held)
    ensures report.manualRecovery == (report.cleanupAttempted && !report.cleanupComplete)
    ensures (report.executionSucceeded ==> report.executionAttempted) && report.executionAttempted == report.published
    ensures (report.published ==> report.preflightAbsent) && (report.preflightAbsent ==> report.cleanupAttempted)
    ensures report.collisionPreserved ==> !report.cleanupAttempted && !report.executionAttempted
    ensures report.cleanupComplete ==> h.unsynced.folders <= old(h.unsynced).folders
    // one execution at most, of the very file that was published and verified twice
    ensures report.executionAttempted ==> Ran(h.log, old(h.log), q, report.executionSucceeded)
    ensures Executions(h.log) == Executions(old(h.log)) + if report.executionAttempted then 1 else 0
    // while others leave the entry alone a run that does not call for help left everything as it was
    ensures h.exclusive && !report.manualRecovery ==> h.world == old(h.world)
    ensures h.exclusive ==> h.world.entries - {q.RunnerKey()} == old(h.world).entries - {q.RunnerKey()}
    ensures h.exclusive && q.RunnerKey() in old(h.world).entries ==> h.world == old(h.world) && !report.cleanupAttempted
    ensures h.exclusive && h.sturdyLooks ==> !report.manualRecovery
    ensures h.quiet && h.sturdyFiles && 0 < |q.bytes| <= MAX_RUNNER_BYTES && q.parent in old(h.rest).folders &&
            TrustedParent(old(h.rest).folders[q.parent], q.owner) ==>
              if q.RunnerKey() in old(h.world).entries then report == BLANK_RUNNER_REPORT.(collisionPreserved := true)
              else report == BLANK_RUNNER_REPORT.(preflightAbsent := true, published := true,
                             executionAttempted := true,
                             executionSucceeded := report.executionSucceeded,
                             cleanupAttempted := true,
                             cleanupComplete := true, finalAbsence := true)
  {
    hide Step, Watch, Host.Separate, WellFormed, Safe, ValidName, RUNNER_NAME, FIXED_LABEL;
    WatchSafe(h.log);
    report := BLANK_RUNNER_REPORT;
    var ok := ValidRunnerRequest(h, q);
    if !ok { return; }
    var absent := ChildAbsent(h, q.RunnerKey());
    if !absent {
      report := report.(collisionPreserved := true);
      return;
    }
    report := PublishRunRemove(h, q);
    WatchSafe(h.log);
  }
}
