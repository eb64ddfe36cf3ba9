/** Ownership of the launchd job: prepare, bootstrap, activate, exercise the denial, clean up. */
module JobOwnership {
  import opened Basics
  import opened Records
  import opened Discipline
  import opened HostModel

  const FIXED_PROGRAM := "/Library/PrivilegedHelperTools/" + FIXED_LABEL
  const FIXED_USER := "_bwagentbridge"

  predicate Sha256Text(s: string) {
    |s| == 64 && forall c <- s :: '0' <= c <= '9' || 'a' <= c <= 'f'
  }

  predicate ValidRecord(j: JobRecord) {
    && j.jobLabel == FIXED_LABEL
    && j.program == FIXED_PROGRAM
    && j.userName == FIXED_USER
    && j.machService == FIXED_LABEL
    && Sha256Text(j.binarySha256) && Sha256Text(j.plistSha256) && j.demandOnly
  }

  /** Only the two digests vary. */
  lemma ValidRecordIs(j: JobRecord)
    ensures ValidRecord(j) <==>
            && Sha256Text(j.binarySha256) && Sha256Text(j.plistSha256)
            && j == JobRecord(FIXED_LABEL, "/Library/PrivilegedHelperTools/" + FIXED_LABEL, "_bwagentbridge",
                              FIXED_LABEL, j.binarySha256, j.plistSha256, true)
  {
    hide FIXED_LABEL, Sha256Text;
  }

  lemma FixedNames(j: JobRecord)
    requires ValidRecord(j)
    ensures j.jobLabel == FIXED_LABEL && j.machService == FIXED_LABEL
  {
  }

  ghost predicate Unloaded(w: World, j: JobRecord) {
    j.jobLabel !in w.jobs && j.machService !in w.machs
  }

  /** What a read-back can show of a loaded job. */
  ghost predicate Shown(w: World, j: JobRecord) {
    j.jobLabel in w.jobs && Alike(w.jobs[j.jobLabel].record, j) && j.machService in w.machs
  }

  ghost predicate Loaded(w: World, j: JobRecord) {
    j.jobLabel in w.jobs && w.jobs[j.jobLabel].record == j && j.machService in w.machs
  }

  /** A read-back that ended at its first surprise. */
  predicate FailedReadBack(past: Log, l: Log, j: JobRecord) {
    l.Then? &&
    match l.last
    case ReadJob(name, x) => l.past == past && name == j.jobLabel && x != Some(j)
    case LabelProbe(name, p) => l.past == Then(past, ReadJob(j.jobLabel, Some(j))) && name == j.jobLabel && p != Present
    case MachProbe(name, p) =>
      && l.past == Then(Then(past, ReadJob(j.jobLabel, Some(j))), LabelProbe(j.jobLabel, Present))
      && name == j.machService && p != Present
    case _ => false
  }

  /** A look for both names that ended at the first one not absent. */
  predicate StillThere(past: Log, l: Log, j: JobRecord) {
    l.Then? &&
    match l.last
    case LabelProbe(name, p) => l.past == past && name == j.jobLabel && p != Absent
    case MachProbe(name, p) =>
      l.past == Then(past, LabelProbe(j.jobLabel, Absent)) && name == j.machService && p != Absent
    case _ => false
  }

  function Forgetting(past: Log, j: JobRecord): Log {
    Then(Then(Then(past, LabelProbe(j.jobLabel, Absent)), MachProbe(j.machService, Absent)), JobForgotten(j))
  }

  predicate BootoutAnswered(l: Log, j: JobRecord, ok: bool) {
    l.Then? && l.last.Bootout? && l.last.job == j && (l.last.answer == Ok <==> ok)
  }

  /** The job was booted out with an OK, then both names were seen absent, and then it was forgotten. */
  predicate BootedOut(l: Log, j: JobRecord) {
    && l.Then? && l.past.Then? && l.past.past.Then? && l == Forgetting(l.past.past.past, j)
    && BootoutAnswered(l.past.past.past, j, true)
  }

  /** The bootout was the last call and not answered OK, or it was and a name was still there. */
  predicate BootoutFailed(l: Log, j: JobRecord) {
    || BootoutAnswered(l, j, false)
    || (l.Then? && BootoutAnswered(l.past, j, true) && StillThere(l.past, l, j))
    || (l.Then? && l.past.Then? && BootoutAnswered(l.past.past, j, true) && StillThere(l.past.past, l, j))
  }

  /** What the exercise of the denial leaves in the monitor. */
  function DenialNoted(m: Monitor, j: JobRecord, ok: bool): Monitor {
    m.(jobDeeds := m.jobDeeds + 1, marks := AddIf(m.marks, ok, ExerciseDenial(j, true)))
  }

  /** Both names were looked for: an error if a look failed, and otherwise no effect because one was not absent. */
  predicate Refused(past: Log, l: Log, j: JobRecord, r: Answer) {
    exists p, q ::
      && l == Then(Then(past, LabelProbe(j.jobLabel, p)), MachProbe(j.machService, q))
      && {p, q} != {Absent} && r == if ProbeError in {p, q} then Error else NoEffect
  }

  datatype JobCall = DoPrepare(candidate: JobRecord) | DoVerify | DoBootstrap | DoActivate | DoDenial | DoCleanup

  class OwnedJob {
    var identity: JobRecord
    var prepared: bool
    var bootstrapAttempted: bool
    var bootstrapped: bool
    var verified: bool
    var activationAttempted: bool
    var processVerified: bool
    var denialVerified: bool

    constructor ()
      ensures Cleared()
    {
      identity, prepared, bootstrapAttempted, bootstrapped := NO_JOB, false, false, false;
      verified, activationAttempted, processVerified, denialVerified := false, false, false, false;
    }

    predicate Cleared() reads this {
      && identity == NO_JOB && !prepared && !bootstrapAttempted && !bootstrapped && !verified
      && !activationAttempted && !processVerified && !denialVerified
    }

    ghost predicate Valid(h: Host) reads this, h {
      && (verified || activationAttempted ==> bootstrapped)
      && (bootstrapped ==> bootstrapAttempted)
      && (bootstrapAttempted ==> prepared)
      && (prepared ==> ValidRecord(identity) && identity in h.mon.preparedJobs)
      && (verified ==> identity in h.mon.verifiedJobs)
      && (processVerified ==> activationAttempted && identity in h.mon.activated)
    }

    method Clear()
      modifies this
      ensures Cleared()
    {
      identity, prepared, bootstrapAttempted, bootstrapped := NO_JOB, false, false, false;
      verified, activationAttempted, processVerified, denialVerified := false, false, false, false;
    }

    /** Look for both names, in any case. */
    method ProbeBoth(h: Host, j: JobRecord) returns (l: Probe, m: Probe)
      requires h.Valid() && ValidRecord(j)
      modifies h`world, h`rest, h`still, h`log, h`mon
      ensures h.Looked() && h.mon == old(h.mon)
      ensures h.log == Then(Then(old(h.log), LabelProbe(j.jobLabel, l)), MachProbe(j.machService, m))
      ensures l == m == Absent ==> JobGone(h.log, j)
      ensures h.exclusive && h.truthful && l == m == Absent ==> Unloaded(h.world, j)
      ensures h.exclusive && h.truthful && (h.obligingLaunchd || h.balkingLaunchd) && Unloaded(h.world, j) ==>
                l == m == Absent
    {
      hide ValidRecord, Step, Watch, WellFormed, Host.Separate, FIXED_LABEL;
      FixedNames(j);
      l := h.ProbeLabel(j.jobLabel);
      m := h.ProbeMachService(j.machService);
    }

    method Prepare(h: Host, candidate: JobRecord) returns (r: Answer)
      requires h.Valid() && Valid(h)
      modifies this`identity, this`prepared, h`world, h`rest, h`still, h`log, h`mon
      ensures h.Looked() && Valid(h) && r != Ambiguous
      ensures !ValidRecord(candidate) || old(prepared) ==> r == Error && h.log == old(h.log) && h.world == old(h.world)
      ensures r == Ok ==>
                && prepared
                && identity == candidate
                && !bootstrapAttempted
                && !bootstrapped
                && !verified
                && !activationAttempted
                && h.mon == old(h.mon).(preparedJobs := old(h.mon).preparedJobs + {candidate})
                && h.log.Then? && h.log.last == JobPrepared(candidate) && JobGone(h.log.past, candidate)
      ensures r != Ok ==> unchanged(this) && h.mon == old(h.mon)
      ensures r != Ok && ValidRecord(candidate) && !old(prepared) ==> Refused(old(h.log), h.log, candidate, r)
      ensures h.exclusive && h.truthful && r == Ok ==> Unloaded(h.world, candidate)
      ensures h.exclusive && h.truthful && (h.obligingLaunchd || h.balkingLaunchd) && ValidRecord(candidate) &&
              !old(prepared) && Unloaded(h.world, candidate) ==>
                r == Ok
    {
      hide ValidRecord, Step, Watch, WellFormed, Host.Separate, FIXED_LABEL, Unloaded, JobReadBack, FailedReadBack,
        Shown, Loaded, JobGone, JobConfirmed;
      if !ValidRecord(candidate) || prepared || bootstrapped || bootstrapAttempted || verified || activationAttempted {
        return Error;
      }
      r := PrepareFree(h, candidate);
    }

    /** Take the candidate if both of its names answer absent. */
    method PrepareFree(h: Host, candidate: JobRecord) returns (r: Answer)
      requires h.Valid() && Valid(h) && ValidRecord(candidate) && !prepared && !bootstrapAttempted && !verified
      modifies this`identity, this`prepared, h`world, h`rest, h`still, h`log, h`mon
      ensures h.Looked() && Valid(h) && r != Ambiguous
      ensures r == Ok ==>
                && prepared && identity == candidate
                && h.mon == old(h.mon).(preparedJobs := old(h.mon).preparedJobs + {candidate})
                && h.log.Then? && h.log.last == JobPrepared(candidate) && JobGone(h.log.past, candidate)
      ensures r != Ok ==> unchanged(this) && h.mon == old(h.mon) && Refused(old(h.log), h.log, candidate, r)
      ensures h.exclusive && h.truthful && r == Ok ==> Unloaded(h.world, candidate)
      ensures h.exclusive && h.truthful && (h.obligingLaunchd || h.balkingLaunchd) && Unloaded(h.world, candidate) ==>
                r == Ok
    {
      hide ValidRecord, Step, Watch, WellFormed, Host.Separate, FIXED_LABEL, Unloaded, JobReadBack, FailedReadBack,
        Shown, Loaded, JobGone, JobConfirmed;
      var l, m := ProbeBoth(h, candidate);
      if l == ProbeError || m == ProbeError { return Error; }
      if l != Absent || m != Absent { return NoEffect; }
      StepJobPrepared(h.mon, h.log, candidate);
      h.Note(JobPrepared(candidate));
      identity, prepared := candidate, true;
      r := Ok;
    }

    /** A truthful reading of the loaded job showed the identity, and it has been left alone since. */
    ghost predicate Seen(h: Host) reads this, h {
      h.truthful && h.still ==> h.JobSlot().Some? && Alike(h.JobSlot().value.record, identity)
    }

    /** Read the loaded job back and look for its label and Mach name, stopping at the first surprise. */
    method Confirm(h: Host) returns (ok: bool)
      requires h.Valid() && ValidRecord(identity)
      modifies h`world, h`rest, h`still, h`log, h`mon
      ensures h.Glanced() && h.mon == old(h.mon)
      ensures ok ==> h.log == JobReadBack(old(h.log), identity) && Seen(h)
      ensures !ok ==> FailedReadBack(old(h.log), h.log, identity)
      ensures h.exclusive && h.truthful && ok ==> Shown(h.world, identity)
      ensures h.exclusive && h.truthful && h.obligingLaunchd && Loaded(h.world, identity) ==> ok
    {
      hide ValidRecord, Step, Watch, WellFormed, Host.Separate, FIXED_LABEL;
      FixedNames(identity);
      var seen := h.ReadLoadedJob(identity.jobLabel);
      if seen.None? || !ValidRecord(seen.value) || seen.value != identity { return false; }
      var l := h.ProbeLabel(identity.jobLabel);
      if l != Present { return false; }
      var m := h.ProbeMachService(identity.machService);
      ok := m == Present;
    }

    method Verify(h: Host) returns (r: Answer)
      requires h.Valid() && Valid(h)
      modifies h`world, h`rest, h`still, h`log, h`mon
      ensures h.Glanced() && Valid(h) && h.mon == old(h.mon)
      ensures r == Error <==> !verified
      ensures !verified ==> h.log == old(h.log) && h.world == old(h.world)
      ensures r == Ok ==> h.log == JobReadBack(old(h.log), identity) && JobConfirmed(h.log, identity) && Seen(h)
      ensures r == Ambiguous ==> FailedReadBack(old(h.log), h.log, identity)
      ensures r != NoEffect
      ensures h.exclusive && h.truthful && r == Ok ==> Shown(h.world, identity)
      ensures h.exclusive && h.truthful && h.obligingLaunchd && verified && Loaded(h.world, identity) ==> r == Ok
    {
      hide ValidRecord, Step, Watch, WellFormed, Host.Separate, FIXED_LABEL;
      if !prepared || !bootstrapped || !verified || !ValidRecord(identity) { return Error; }
      var ok := Confirm(h);
      r := if ok then Ok else Ambiguous;
    }

    /** A bootstrap becomes ownership only when the loaded job reads back exactly. */
    method BootstrapJob(h: Host) returns (r: Answer, ghost a: Answer)
      requires h.Valid() && Valid(h)
      modifies this`bootstrapAttempted, this`bootstrapped, this`verified, h`world, h`rest, h`still, h`log, h`mon
      ensures h.Valid() && Valid(h) && h.world.held == old(h.world.held)
      ensures !old(prepared) || old(bootstrapped) ==>
                r == Error && unchanged(this) && h.world == old(h.world) && h.log == old(h.log) && h.mon == old(h.mon)
      ensures old(prepared) && !old(bootstrapped) ==>
                && (bootstrapAttempted <==> old(bootstrapAttempted) || a != NoEffect)
                && (bootstrapped <==> a == Ok)
                && (verified <==> r == Ok)
                && (r == NoEffect <==> a == NoEffect) && r != Error && (r == Ok ==> a == Ok)
                && (var m := Placed(old(h.mon).(jobOpen := old(h.mon).jobOpen || a != NoEffect), 4);
                    h.mon == if r == Ok then m.(verifiedJobs := m.verifiedJobs + {identity}) else m)
                && (a != Ok ==> h.log == Then(old(h.log), Bootstrap(identity, a)))
                && (a == Ok && r != Ok ==> FailedReadBack(Then(old(h.log), Bootstrap(identity, Ok)), h.log, identity))
      ensures r == Ok ==>
                h.log == Then(JobReadBack(Then(old(h.log), Bootstrap(identity, Ok)), identity), JobVerified(identity))
      ensures && h.mon.safe == old(h.mon.safe)
              && h.mon.forgotten == old(h.mon.forgotten)
              && h.mon.jobDeeds == old(h.mon.jobDeeds)
      ensures h.exclusive ==> JobSlotOnly(old(h.world), h.world, identity)
      ensures h.exclusive && h.truthful && r == Ok ==> Shown(h.world, identity)
      ensures h.exclusive && h.truthful && h.obligingLaunchd && old(prepared) && !old(bootstrapped) ==>
                r == Ok && Loaded(h.world, identity)
      ensures h.balkingLaunchd && old(prepared) && !old(bootstrapped) ==> a == Ambiguous
    {
      hide ValidRecord, Step, Watch, WellFormed, Host.Separate, FIXED_LABEL, Loaded, JobSlotOnly, JobGone, CleanedUp,
        FailedReadBack, JobReadBack, JobProof, JobConfirmed, Placed, Shown;
      a := Error;
      JobSlotSame(h.world, identity);
      if !prepared || bootstrapped || !ValidRecord(identity) { r := Error; return; }
      var answer := IssueBootstrap(h);
      a := answer;
      r := TakeBootstrap(h, answer);
    }

    /** What to make of the answer to a bootstrap just issued. */
    method TakeBootstrap(h: Host, a: Answer) returns (r: Answer)
      requires h.Valid() && Valid(h) && prepared && !bootstrapped && h.log.Then? && h.log.last == Bootstrap(identity, a)
      modifies this`bootstrapAttempted, this`bootstrapped, this`verified, h`world, h`rest, h`still, h`log, h`mon
      ensures h.Glanced() && Valid(h)
      ensures bootstrapAttempted <==> old(bootstrapAttempted) || a != NoEffect
      ensures (bootstrapped <==> a == Ok) && (verified <==> r == Ok)
      ensures r != Error && (r == NoEffect <==> a == NoEffect) && (r == Ok ==> a == Ok)
      ensures h.mon == if r == Ok then old(h.mon).(verifiedJobs := old(h.mon).verifiedJobs + {identity}) else old(h.mon)
      ensures a != Ok ==> h.log == old(h.log)
      ensures a == Ok && r != Ok ==> FailedReadBack(old(h.log), h.log, identity)
      ensures r == Ok ==> h.log == Then(JobReadBack(old(h.log), identity), JobVerified(identity))
      ensures h.exclusive && h.truthful && r == Ok ==> Shown(h.world, identity)
      ensures h.exclusive && h.truthful && h.obligingLaunchd && a == Ok && Loaded(h.world, identity) ==> r == Ok
    {
      hide ValidRecord, Step, Watch, WellFormed, Host.Separate, FIXED_LABEL, Loaded, FailedReadBack, JobReadBack,
        JobConfirmed, JobProof, JobGone, Shown;
      if a == NoEffect { return NoEffect; }
      bootstrapAttempted := true;
      if a != Ok { return Ambiguous; }
      bootstrapped := true;
      var ok := Adopt(h);
      r := if ok then Ok else Ambiguous;
    }

    /** Right after a bootstrap that answered OK: the job is owned if it reads back exactly. */
    method Adopt(h: Host) returns (ok: bool)
      requires && h.Valid()
               && Valid(h)
               && bootstrapped
               && !verified
               && h.log.Then?
               && h.log.last == Bootstrap(identity, Ok)
      modifies this`verified, h`world, h`rest, h`still, h`log, h`mon
      ensures h.Glanced() && Valid(h) && (verified <==> ok)
      ensures h.mon == if ok then old(h.mon).(verifiedJobs := old(h.mon).verifiedJobs + {identity}) else old(h.mon)
      ensures if ok then h.log == Then(JobReadBack(old(h.log), identity), JobVerified(identity))
              else FailedReadBack(old(h.log), h.log, identity)
      ensures h.exclusive && h.truthful && ok ==> Shown(h.world, identity)
      ensures h.exclusive && h.truthful && h.obligingLaunchd && Loaded(h.world, identity) ==> ok
    {
      hide ValidRecord, Step, Watch, WellFormed, Host.Separate, FIXED_LABEL, Loaded, FailedReadBack, Shown;
      ok := Confirm(h);
      if !ok { return; }
      StepJobVerified(h.mon, h.log, identity);
      h.Note(JobVerified(identity));
      verified := true;
    }

    method IssueBootstrap(h: Host) returns (a: Answer)
      requires h.Valid() && Valid(h) && prepared
      modifies h`world, h`rest, h`still, h`log, h`mon
      ensures && h.Valid()
              && Valid(h)
              && h.world.held == old(h.world.held)
              && h.log == Then(old(h.log), Bootstrap(identity, a))
      ensures h.mon == Placed(old(h.mon).(jobOpen := old(h.mon).jobOpen || a != NoEffect), 4)
      ensures && h.mon.safe == old(h.mon.safe)
              && h.mon.forgotten == old(h.mon.forgotten)
              && h.mon.jobDeeds == old(h.mon.jobDeeds)
      ensures h.exclusive ==> JobSlotOnly(old(h.world), h.world, identity)
      ensures h.obligingLaunchd ==> a == Ok && Loaded(h.world, identity)
      ensures h.balkingLaunchd ==> a == Ambiguous
    {
      hide ValidRecord, Step, Watch, WellFormed, Host.Separate, FIXED_LABEL, JobConfirmed, JobGone, FailedReadBack,
        JobReadBack;
      FixedNames(identity);
      a := h.BootstrapJob(identity);
      StepBootstrapped(old(h.mon), old(h.log), identity, a);
    }

    /** Activate only a freshly confirmed job; anything but a proven no-effect counts as an attempt. */
    method ActivateAndVerify(h: Host) returns (r: Answer)
      requires h.Valid() && Valid(h)
      modifies this`verified, this`activationAttempted, this`processVerified, h`world, h`rest, h`still, h`log, h`mon
      ensures h.Valid() && Valid(h) && h.world.held == old(h.world.held)
      ensures !old(verified) || old(activationAttempted) ==>
                r == Error && unchanged(this) && h.world == old(h.world) && h.log == old(h.log) && h.mon == old(h.mon)
      ensures old(verified) && !old(activationAttempted) ==>
                && r != Error && (processVerified <==> r == Ok)
                && (r == Ok || !verified ==> r != NoEffect)
                && (r == Ok ==> verified && activationAttempted)
                && (!verified ==> && r == Ambiguous && !activationAttempted && h.mon == old(h.mon)
                                  && FailedReadBack(old(h.log), h.log, identity))
                && (verified ==>
                      && h.mon == Placed(old(h.mon).(jobDeeds := old(h.mon).jobDeeds + 1, activated := h.mon.activated,
                                         marks := AddIf(old(h.mon).marks, r == Ok, ProcessVerified(identity))), 5)
                      && (activationAttempted <==> r != NoEffect))
      ensures r == Ok ==> h.log == Then(Then(Then(JobReadBack(old(h.log), identity), Activate(identity, Ok)),
                                             VerifyProcess(identity, true)), ProcessVerified(identity))
      ensures && h.mon.safe == old(h.mon.safe)
              && h.mon.forgotten == old(h.mon.forgotten)
              && h.mon.jobDeeds >= old(h.mon.jobDeeds)
      ensures h.exclusive ==> JobSlotOnly(old(h.world), h.world, identity)
      ensures h.exclusive && h.truthful && h.obligingLaunchd && old(verified) && !old(activationAttempted) &&
              Loaded(old(h.world), identity) ==>
                r == Ok && Loaded(h.world, identity) && h.world.jobs[identity.jobLabel].running
    {
      hide ValidRecord, Step, Watch, WellFormed, Host.Separate, FIXED_LABEL, FailedReadBack, JobReadBack, JobConfirmed,
        JobSlotOnly;
      JobSlotSame(h.world, identity);
      if !verified || activationAttempted || processVerified { return Error; }
      r := Verify(h);
      if r != Ok {
        verified := false;
        return Ambiguous;
      }
      r := ActivateConfirmed(h);
    }

    /** Activate a freshly confirmed job and look for its process. */
    method ActivateConfirmed(h: Host) returns (r: Answer)
      requires && h.Valid()
               && Valid(h)
               && verified
               && !activationAttempted
               && !processVerified
               && JobConfirmed(h.log, identity)
      modifies this`activationAttempted, this`processVerified, h`world, h`rest, h`still, h`log, h`mon
      ensures h.Valid() && Valid(h) && h.world.held == old(h.world.held)
      ensures r != Error && (processVerified <==> r == Ok) && (activationAttempted <==> r != NoEffect)
      ensures h.mon == Placed(old(h.mon).(jobDeeds := old(h.mon).jobDeeds + 1, activated := h.mon.activated,
                                          marks := AddIf(old(h.mon).marks, r == Ok, ProcessVerified(identity))), 5)
      ensures r == Ok ==> h.log == Then(Then(Then(old(h.log), Activate(identity, Ok)), VerifyProcess(identity, true)),
                                        ProcessVerified(identity))
      ensures h.exclusive ==> JobSlotOnly(old(h.world), h.world, identity)
      ensures h.exclusive && h.obligingLaunchd && Loaded(old(h.world), identity) ==>
                r == Ok && Loaded(h.world, identity) && h.world.jobs[identity.jobLabel].running
    {
      hide ValidRecord, Step, Watch, WellFormed, Host.Separate, FIXED_LABEL, JobConfirmed, FailedReadBack, JobReadBack;
      var a := IssueActivate(h);
      if a == NoEffect { return NoEffect; }
      activationAttempted := true;
      if a != Ok { return Ambiguous; }
      processVerified := LookForProcess(h);
      r := if processVerified then Ok else Ambiguous;
    }

    /** The process of a job whose activation was just answered OK. */
    method LookForProcess(h: Host) returns (ok: bool)
      requires h.Valid() && Valid(h) && verified && h.log.Then? && h.log.last == Activate(identity, Ok)
      modifies h`world, h`rest, h`still, h`log, h`mon
      ensures h.Looked() && Valid(h)
      ensures h.mon == old(h.mon).(marks := AddIf(old(h.mon).marks, ok, ProcessVerified(identity)))
      ensures ok ==> h.log == Then(Then(old(h.log), VerifyProcess(identity, true)), ProcessVerified(identity))
      ensures h.exclusive && h.obligingLaunchd && Loaded(h.world, identity) &&
              h.world.jobs[identity.jobLabel].running ==>
                ok
    {
      hide ValidRecord, Step, Watch, WellFormed, Host.Separate, FIXED_LABEL, JobConfirmed, FailedReadBack, JobReadBack;
      FixedNames(identity);
      ok := h.CheckProcess(identity);
      if !ok { return; }
      StepProcessVerified(h.mon, h.log, identity);
      h.Note(ProcessVerified(identity));
    }

    method IssueActivate(h: Host) returns (a: Answer)
      requires h.Valid() && Valid(h) && verified && JobConfirmed(h.log, identity)
      modifies h`world, h`rest, h`still, h`log, h`mon
      ensures && h.Valid()
              && Valid(h)
              && h.world.held == old(h.world.held)
              && h.log == Then(old(h.log), Activate(identity, a))
      ensures h.mon == Placed(old(h.mon).(jobDeeds := old(h.mon).jobDeeds + 1, activated := h.mon.activated), 5)
      ensures a == Ok ==> identity in h.mon.activated
      ensures h.exclusive ==> JobSlotOnly(old(h.world), h.world, identity)
      ensures h.exclusive && h.obligingLaunchd && Loaded(old(h.world), identity) ==>
                a == Ok && Loaded(h.world, identity) && h.world.jobs[identity.jobLabel].running
    {
      hide ValidRecord, Step, Watch, WellFormed, Host.Separate, FIXED_LABEL, JobConfirmed, FailedReadBack, JobReadBack;
      FixedNames(identity);
      a := h.ActivateJob(identity);
      StepActivated(old(h.mon), old(h.log), identity, a);
    }

    /** The denial counts only right after both the job and its process were confirmed. */
    method Denial(h: Host) returns (r: Answer)
      requires h.Valid() && Valid(h)
      modifies this`verified, this`processVerified, this`denialVerified, h`world, h`rest, h`still, h`log, h`mon
      ensures h.Glanced() && Valid(h)
      ensures !old(verified) || !old(processVerified) || old(denialVerified) ==>
                r == Error && unchanged(this) && h.log == old(h.log) && h.mon == old(h.mon) && h.world == old(h.world)
      ensures old(verified) && old(processVerified) && !old(denialVerified) ==>
                && r == (if denialVerified then Ok else Ambiguous) && (denialVerified ==> verified && processVerified)
                // what failed is lost: the job with its read-back, the process with its check
                && (!verified ==> processVerified && FailedReadBack(old(h.log), h.log, identity) && h.mon == old(h.mon))
                && (!processVerified ==>
                      && verified && h.mon == old(h.mon)
                      && h.log == Then(JobReadBack(old(h.log), identity), VerifyProcess(identity, false)))
                && (verified && processVerified ==>
                      && h.mon == DenialNoted(old(h.mon), identity, denialVerified)
                      && h.log == Then(Then(JobReadBack(old(h.log), identity), VerifyProcess(identity, true)),
                                       ExerciseDenial(identity, denialVerified)))
      ensures h.mon == if h.mon.jobDeeds == old(h.mon).jobDeeds then old(h.mon)
                       else DenialNoted(old(h.mon), identity, r == Ok)
      ensures r == Ok ==> h.mon.jobDeeds > old(h.mon).jobDeeds
      ensures h.exclusive && h.truthful && h.obligingLaunchd && old(verified) && old(processVerified) &&
              !old(denialVerified) && Loaded(h.world, identity) && h.world.jobs[identity.jobLabel].running ==>
                r == Ok
    {
      hide ValidRecord, Step, Watch, WellFormed, Host.Separate, FIXED_LABEL, FailedReadBack, JobReadBack, JobConfirmed,
        JobGone;
      if !verified || !activationAttempted || !processVerified || denialVerified { return Error; }
      r := DenyVerified(h);
    }

    /** A last read-back, and then the process and the denial. */
    method DenyVerified(h: Host) returns (r: Answer)
      requires h.Valid() && Valid(h) && verified && activationAttempted && processVerified && !denialVerified
      modifies this`verified, this`processVerified, this`denialVerified, h`world, h`rest, h`still, h`log, h`mon
      ensures h.Glanced() && Valid(h)
      ensures r == (if denialVerified then Ok else Ambiguous) && (denialVerified ==> verified && processVerified)
      ensures !verified ==> processVerified && FailedReadBack(old(h.log), h.log, identity) && h.mon == old(h.mon)
      ensures !processVerified ==>
                && verified && h.mon == old(h.mon)
                && h.log == Then(JobReadBack(old(h.log), identity), VerifyProcess(identity, false))
      ensures verified && processVerified ==>
                && h.mon == DenialNoted(old(h.mon), identity, denialVerified)
                && h.log == Then(Then(JobReadBack(old(h.log), identity), VerifyProcess(identity, true)),
                                 ExerciseDenial(identity, denialVerified))
      ensures h.exclusive && h.truthful && h.obligingLaunchd && Loaded(h.world, identity) &&
              h.world.jobs[identity.jobLabel].running ==>
                r == Ok
    {
      hide ValidRecord, Step, Watch, WellFormed, Host.Separate, FIXED_LABEL, FailedReadBack, JobReadBack, JobConfirmed,
        JobGone;
      r := Verify(h);
      if r != Ok {
        verified := false;
        return Ambiguous;
      }
      r := DenyConfirmed(h);
    }

    /** The process of a freshly confirmed job, and then the denial. */
    method DenyConfirmed(h: Host) returns (r: Answer)
      requires && h.Valid()
               && Valid(h)
               && verified
               && activationAttempted
               && processVerified
               && !denialVerified
               && JobConfirmed(h.log, identity)
      modifies this`processVerified, this`denialVerified, h`world, h`rest, h`still, h`log, h`mon
      ensures && h.Looked()
              && Valid(h)
              && r == (if denialVerified then Ok else Ambiguous)
              && (denialVerified ==> processVerified)
      ensures !processVerified ==> h.mon == old(h.mon) && h.log == Then(old(h.log), VerifyProcess(identity, false))
      ensures processVerified ==>
                && h.mon == DenialNoted(old(h.mon), identity, denialVerified)
                && h.log == Then(Then(old(h.log), VerifyProcess(identity, true)),
                                 ExerciseDenial(identity, denialVerified))
      ensures h.exclusive && h.obligingLaunchd && Loaded(h.world, identity) &&
              h.world.jobs[identity.jobLabel].running ==>
                r == Ok
    {
      hide ValidRecord, Step, Watch, WellFormed, Host.Separate, FIXED_LABEL, JobConfirmed, FailedReadBack;
      FixedNames(identity);
      var running := h.CheckProcess(identity);
      if !running {
        processVerified := false;
        return Ambiguous;
      }
      ghost var m, l := h.mon, h.log;
      var ok := h.TryDenial(identity);
      StepDenied(m, l, identity, ok);
      denialVerified := ok;
      r := if ok then Ok else Ambiguous;
    }

    /** Both names are gone: forget the job. */
    method ForgetIfGone(h: Host) returns (gone: bool)
      requires h.Valid() && Valid(h) && prepared
      modifies this, h`world, h`rest, h`still, h`log, h`mon
      ensures h.Looked() && Valid(h)
      ensures gone ==> Cleared() && h.mon == old(h.mon).(forgotten := old(h.mon).forgotten + 1, jobOpen := false)
                       && h.log == Forgetting(old(h.log), old(identity))
      ensures !gone ==> unchanged(this) && h.mon == old(h.mon) && StillThere(old(h.log), h.log, identity)
      ensures h.exclusive && h.truthful && gone ==> Unloaded(h.world, old(identity))
      ensures h.exclusive && h.truthful && h.obligingLaunchd && Unloaded(h.world, old(identity)) ==> gone
    {
      hide ValidRecord, Step, Watch, WellFormed, Host.Separate, FIXED_LABEL, JobConfirmed, FailedReadBack, JobReadBack;
      FixedNames(identity);
      var l := h.ProbeLabel(identity.jobLabel);
      if l != Absent { return false; }
      var m := h.ProbeMachService(identity.machService);
      if m != Absent { return false; }
      StepForgotten(h.mon, h.log, identity);
      h.Note(JobForgotten(identity));
      Clear();
      gone := true;
    }

    /** Stop the process of a freshly confirmed job. */
    method StopConfirmed(h: Host) returns (ok: bool)
      requires h.Valid() && Valid(h) && verified && JobConfirmed(h.log, identity) && Seen(h)
      modifies h`world, h`rest, h`still, h`log, h`mon
      ensures h.Valid() && Valid(h) && h.world.held == old(h.world.held)
      ensures h.mon == Placed(old(h.mon).(jobDeeds := old(h.mon).jobDeeds + 1,
                                          stopFailed := old(h.mon).stopFailed || !ok), 6)
      ensures CleanedUp(old(h.mon), h.mon, 6, 7)
      ensures h.exclusive ==> JobSlotOnly(old(h.world), h.world, identity)
      ensures h.exclusive && h.obligingLaunchd && Loaded(old(h.world), identity) ==> ok && Loaded(h.world, identity)
    {
      hide ValidRecord, Step, Watch, WellFormed, Host.Separate, FIXED_LABEL, JobConfirmed, JobGone, FailedReadBack,
        JobReadBack;
      FixedNames(identity);
      ghost var hit, sure;
      var a: Answer;
      a, hit, sure := h.StopJob(identity);
      StepStopped(old(h.mon), old(h.log), identity, a, hit, sure);
      ok := a == Ok || a == NoEffect;
    }

    /** Boot out a freshly confirmed job and see both names gone. */
    method BootoutConfirmed(h: Host) returns (gone: bool)
      requires h.Valid() && Valid(h) && verified && JobConfirmed(h.log, identity) && Seen(h)
      modifies this, h`world, h`rest, h`still, h`log, h`mon
      ensures h.Valid() && Valid(h) && h.world.held == old(h.world.held)
      ensures var m := Placed(old(h.mon).(jobDeeds := old(h.mon).jobDeeds + 1), 7);
              h.mon == if gone then m.(forgotten := m.forgotten + 1, jobOpen := false) else m
      ensures if gone then Cleared() && BootedOut(h.log, old(identity))
              else unchanged(this) && BootoutFailed(h.log, identity)
      ensures h.exclusive ==> JobSlotOnly(old(h.world), h.world, old(identity))
      ensures h.exclusive && h.truthful && gone ==> Unloaded(h.world, old(identity))
      ensures h.exclusive && h.truthful && h.obligingLaunchd && Loaded(old(h.world), old(identity)) ==> gone
    {
      hide ValidRecord, Step, Watch, WellFormed, Host.Separate, FIXED_LABEL, JobSlotOnly, Loaded, Unloaded, Placed,
        JobConfirmed, JobGone;
      var a := BootoutSeen(h);
      JobSlotSame(h.world, identity);
      if a != Ok { return false; }
      gone := ForgetIfGone(h);
    }

    method BootoutSeen(h: Host) returns (a: Answer)
      requires h.Valid() && Valid(h) && verified && JobConfirmed(h.log, identity) && Seen(h)
      modifies h`world, h`rest, h`still, h`log, h`mon
      ensures h.Valid() && Valid(h) && h.world.held == old(h.world.held)
      ensures h.mon == Placed(old(h.mon).(jobDeeds := old(h.mon).jobDeeds + 1), 7)
      ensures BootoutAnswered(h.log, identity, a == Ok)
      ensures h.exclusive ==> JobSlotOnly(old(h.world), h.world, identity)
      ensures h.exclusive && h.truthful && h.obligingLaunchd && Loaded(old(h.world), identity) ==>
                a == Ok && Unloaded(h.world, identity)
    {
      hide ValidRecord, Step, Watch, WellFormed, Host.Separate, FIXED_LABEL, JobConfirmed, JobGone, FailedReadBack,
        JobReadBack;
      FixedNames(identity);
      ghost var hit, sure;
      a, hit, sure := h.BootoutJob(identity);
      StepBootedOut(old(h.mon), old(h.log), identity, a, hit, sure);
    }

    /** What one cleanup may change in the monitor. */
    static ghost predicate CleanedUp(m: Monitor, n: Monitor, first: nat, last: nat) {
      && n == m.(ordered := n.ordered, stage := n.stage, jobDeeds := n.jobDeeds, forgotten := n.forgotten,
              jobOpen := n.jobOpen, stopFailed := n.stopFailed)
      && n.jobDeeds >= m.jobDeeds && n.forgotten >= m.forgotten && (m.stopFailed ==> n.stopFailed)
      && (m.ordered && m.stage <= first ==> n.ordered && n.stage <= last)
    }

    static lemma CleanedUpTwice(m: Monitor, n: Monitor, o: Monitor)
      requires (CleanedUp(m, n, 6, 7) || n == m) && CleanedUp(n, o, 7, 8)
      ensures CleanedUp(m, o, 6, 8)
    {
    }

    /**
     How many deeds a cleanup of a verified job does when no read-back fails: a stop if a process may run, and a
     bootout.
     */
    function AllDeeds(): nat reads this { if activationAttempted then 2 else 1 }

    /** The job is gone and forgotten, or it is still on record: as verified exactly if no read-back failed. */
    twostate predicate Dismantled(h: Host, r: Answer) reads this, h {
      && r in {Ok, Ambiguous}
      && (r == Ok ==> Cleared()) && (!old(h.mon.stopFailed) ==> (r == Ok <==> Cleared() && !h.mon.stopFailed))
      && h.mon.jobOpen == (old(h.mon.jobOpen) && !Cleared())
      && (Cleared() ==> && h.mon.forgotten == old(h.mon.forgotten) + 1
                        && h.mon.jobDeeds == old(h.mon.jobDeeds) + old(AllDeeds())
                        && BootedOut(h.log, old(identity)))
      && (!Cleared() && verified ==> BootoutFailed(h.log, identity))
      && (!Cleared() ==>
            && h.mon.forgotten == old(h.mon.forgotten)
            && (verified <==> h.mon.jobDeeds == old(h.mon.jobDeeds) + old(AllDeeds()))
            && identity == old(identity)
            && prepared
            && bootstrapAttempted
            && bootstrapped
            && activationAttempted == old(activationAttempted)
            && processVerified == old(processVerified) && denialVerified == old(denialVerified))
    }

    /** A last read-back, the bootout, and a look whether both names are gone. */
    method ConfirmAndBootout(h: Host) returns (gone: bool)
      requires h.Valid() && Valid(h) && verified
      modifies this, h`world, h`rest, h`still, h`log, h`mon
      ensures h.Valid() && Valid(h) && h.world.held == old(h.world.held)
      ensures var m := Placed(old(h.mon).(jobDeeds := old(h.mon).jobDeeds + 1), 7);
              h.mon == if gone then m.(forgotten := m.forgotten + 1, jobOpen := false) else if verified then m
              else old(h.mon)
      ensures CleanedUp(old(h.mon), h.mon, 7, 8)
      ensures gone ==> BootedOut(h.log, old(identity))
      ensures !gone && verified ==> BootoutFailed(h.log, identity)
      ensures if gone then Cleared()
              else unchanged(this`identity, this`prepared, this`bootstrapAttempted, this`bootstrapped,
                             this`activationAttempted, this`processVerified, this`denialVerified)
      ensures h.exclusive ==> JobSlotOnly(old(h.world), h.world, old(identity))
      ensures h.exclusive && h.truthful && gone ==> Unloaded(h.world, old(identity))
      ensures h.exclusive && h.truthful && h.obligingLaunchd && Loaded(old(h.world), old(identity)) ==> gone
    {
      hide ValidRecord, Step, Watch, WellFormed, Host.Separate, FIXED_LABEL, JobSlotOnly, Loaded, Unloaded,
        JobConfirmed, JobGone, JobReadBack, FailedReadBack;
      JobSlotSame(h.world, identity);
      var r := Verify(h);
      if r != Ok {
        verified := false;
        return false;
      }
      gone := BootoutConfirmed(h);
    }

    /** Stop if a process may run, then boot out; a failed stop is remembered but does not end the cleanup. */
    method Dismantle(h: Host) returns (r: Answer)
      requires h.Valid() && Valid(h) && verified && JobConfirmed(h.log, identity) && Seen(h)
      modifies this, h`world, h`rest, h`still, h`log, h`mon
      ensures h.Valid() && Valid(h) && h.world.held == old(h.world.held)
      ensures Dismantled(h, r) && CleanedUp(old(h.mon), h.mon, 6, 8)
      ensures h.exclusive ==> JobSlotOnly(old(h.world), h.world, old(identity))
      ensures h.exclusive && h.truthful && Cleared() ==> Unloaded(h.world, old(identity))
      ensures h.exclusive && h.truthful && h.obligingLaunchd && Loaded(old(h.world), old(identity)) ==> r == Ok
    {
      hide ValidRecord, Step, Watch, WellFormed, Host.Separate, FIXED_LABEL, JobSlotOnly, Loaded, Unloaded,
        JobConfirmed, JobGone, JobReadBack, FailedReadBack, CleanedUp;
      var failed := false;
      JobSlotSame(h.world, identity);
      if activationAttempted {
        var stopped := StopConfirmed(h);
        failed := !stopped;
      }
      ghost var j, w1, m1 := identity, h.world, h.mon;
      var gone := ConfirmAndBootout(h);
      if h.exclusive { JobSlotTwice(old(h.world), w1, h.world, j); }
      CleanedUpTwice(old(h.mon), m1, h.mon);
      r := if gone && !failed then Ok else Ambiguous;
    }

    method Cleanup(h: Host) returns (r: Answer)
      requires h.Valid() && Valid(h)
      modifies this, h`world, h`rest, h`still, h`log, h`mon
      ensures h.Valid() && Valid(h) && h.world.held == old(h.world.held)
      ensures !old(bootstrapAttempted) ==>
                && r == NoEffect
                && unchanged(this)
                && h.world == old(h.world)
                && h.log == old(h.log)
                && h.mon == old(h.mon)
      // verified: a possible process is stopped, then the job is booted out
      ensures old(verified) ==> Dismantled(h, r)
      // never verified: look, and never touch
      ensures old(bootstrapAttempted) && !old(verified) ==>
                && r == (if Cleared() then Ok else Ambiguous) && (!Cleared() ==> unchanged(this))
                && h.mon ==
                   if Cleared() then old(h.mon).(forgotten := old(h.mon).forgotten + 1, jobOpen := false)
                   else old(h.mon)
      ensures && h.mon.safe == old(h.mon.safe)
              && h.mon.forgotten >= old(h.mon.forgotten)
              && h.mon.jobDeeds >= old(h.mon.jobDeeds)
      ensures CleanedUp(old(h.mon), h.mon, 6, 8)
      ensures h.exclusive ==> JobSlotOnly(old(h.world), h.world, old(identity))
      ensures h.exclusive && h.truthful && old(bootstrapAttempted) && Cleared() ==> Unloaded(h.world, old(identity))
      ensures h.exclusive && h.truthful && h.obligingLaunchd && old(verified) && Loaded(old(h.world), old(identity)) ==>
                r == Ok
    {
      hide ValidRecord, Step, Watch, WellFormed, Host.Separate, FIXED_LABEL, JobSlotOnly, Loaded, Unloaded,
        JobConfirmed, JobGone, JobReadBack, FailedReadBack;
      JobSlotSame(h.world, identity);
      if !bootstrapAttempted { return NoEffect; }
      if !bootstrapped || !verified {
        var forgotten := ForgetIfGone(h);
        return if forgotten then Ok else Ambiguous;
      }
      r := Verify(h);
      if r != Ok {
        verified := false;
        return Ambiguous;
      }
      r := Dismantle(h);
    }

    /** A bootstrap was tried and did not answer OK. */
    predicate InLimbo() reads this { bootstrapAttempted && !bootstrapped }

    /** Bootstrapped, and a read-back failed. */
    predicate Lost() reads this { bootstrapped && !verified }
  }

  method Perform(h: Host, owned: OwnedJob, call: JobCall) returns (r: Answer)
    requires h.Valid() && owned.Valid(h)
    modifies owned, h`world, h`rest, h`still, h`log, h`mon
    ensures h.Valid() && owned.Valid(h) && h.world.held == old(h.world.held)
    ensures old(h.mon.safe) ==> h.mon.safe
    ensures h.mon.forgotten >= old(h.mon.forgotten) && h.mon.jobDeeds >= old(h.mon.jobDeeds)
    // bootstrapped but unverified: no deed, and nothing changes until the job was seen gone
    ensures old(owned.Lost()) ==> h.mon.jobDeeds == old(h.mon.jobDeeds)
    ensures old(owned.Lost()) && h.mon.forgotten == old(h.mon.forgotten) ==> owned.Lost()
    // in limbo: the same, but for a bootstrap
    ensures old(owned.InLimbo()) ==> h.mon.jobDeeds == old(h.mon.jobDeeds)
    ensures old(owned.InLimbo()) && h.mon.forgotten == old(h.mon.forgotten) ==>
              owned.InLimbo() || (call.DoBootstrap? && owned.bootstrapped && owned.identity == old(owned.identity))
  {
    hide ValidRecord, Step, Watch, WellFormed, Host.Separate, FIXED_LABEL, FailedReadBack, JobReadBack, JobGone,
      JobConfirmed, JobProof, JobSlotOnly, Loaded, Unloaded, OwnedJob.CleanedUp, OwnedJob.Dismantled, Placed;
    match call {
      case DoPrepare(c) => r := owned.Prepare(h, c);
      case DoVerify => r := owned.Verify(h);
      case DoBootstrap => ghost var a; r, a := owned.BootstrapJob(h);
      case DoActivate => r := owned.ActivateAndVerify(h);
      case DoDenial => r := owned.Denial(h);
      case DoCleanup => r := owned.Cleanup(h);
    }
  }

  /** Any sequence of calls on a fresh record, with any answers, keeps every licence. */
  method AnyRun(h: Host, script: seq<JobCall>) returns (owned: OwnedJob)
    requires h.Valid() && Safe(h.log)
    modifies h`world, h`rest, h`still, h`log, h`mon
    ensures h.Valid() && fresh(owned) && owned.Valid(h) && Safe(h.log)
  {
    hide Safe, ValidRecord, Step, Watch, WellFormed, Host.Separate, FIXED_LABEL;
    owned := new OwnedJob();
    WatchSafe(h.log);
    for i := 0 to |script|
      invariant h.Valid() && owned.Valid(h) && h.mon.safe
    {
      var r := Perform(h, owned, script[i]);
    }
    WatchSafe(h.log);
  }

  /**
   Ownership once lost is not regained: no deed on the job before it was forgotten, and it is forgotten only when
   both of its names were just seen absent.
   */
  method LostRun(h: Host, owned: OwnedJob, script: seq<JobCall>)
    requires h.Valid() && owned.Valid(h) && owned.Lost()
    modifies owned, h`world, h`rest, h`still, h`log, h`mon
    ensures h.Valid() && owned.Valid(h) && (Safe(old(h.log)) ==> Safe(h.log))
    ensures h.mon.jobDeeds > old(h.mon.jobDeeds) ==> h.mon.forgotten > old(h.mon.forgotten)
    ensures h.mon.forgotten == old(h.mon.forgotten) ==> owned.Lost()
  {
    hide Safe, ValidRecord, Step, Watch, WellFormed, Host.Separate, FIXED_LABEL;
    WatchSafe(h.log);
    for i := 0 to |script|
      invariant && h.Valid()
                && owned.Valid(h)
                && h.mon.forgotten >= old(h.mon.forgotten)
                && (old(h.mon.safe) ==> h.mon.safe)
      invariant h.mon.forgotten == old(h.mon.forgotten) ==> h.mon.jobDeeds == old(h.mon.jobDeeds) && owned.Lost()
    {
      var r := Perform(h, owned, script[i]);
    }
    WatchSafe(h.log);
  }

  /**
   A job whose bootstrap did not answer OK is taken over only by bootstrapping again: without such a call nothing is
   done to it, and it stays where it is, until both of its names were seen absent.
   */
  method LimboRun(h: Host, owned: OwnedJob, script: seq<JobCall>)
    requires h.Valid() && owned.Valid(h) && owned.InLimbo() && DoBootstrap !in script
    modifies owned, h`world, h`rest, h`still, h`log, h`mon
    ensures h.Valid() && owned.Valid(h) && (Safe(old(h.log)) ==> Safe(h.log))
    ensures h.mon.jobDeeds > old(h.mon.jobDeeds) ==> h.mon.forgotten > old(h.mon.forgotten)
    ensures h.mon.forgotten == old(h.mon.forgotten) ==> owned.InLimbo()
  {
    hide Safe, ValidRecord, Step, Watch, WellFormed, Host.Separate, FIXED_LABEL;
    WatchSafe(h.log);
    for i := 0 to |script|
      invariant && h.Valid()
                && owned.Valid(h)
                && h.mon.forgotten >= old(h.mon.forgotten)
                && (old(h.mon.safe) ==> h.mon.safe)
      invariant h.mon.forgotten == old(h.mon.forgotten) ==> h.mon.jobDeeds == old(h.mon.jobDeeds) && owned.InLimbo()
    {
      assert script[i] != DoBootstrap;
      var r := Perform(h, owned, script[i]);
    }
    WatchSafe(h.log);
  }

  /** From limbo one more bootstrap, on a host that does as it is told, has the job adopted and activated. */
  method AdoptedFromLimbo(h: Host, owned: OwnedJob) returns (r: Answer)
    requires h.Valid() && owned.Valid(h) && owned.InLimbo()
    requires h.exclusive && h.truthful && h.obligingLaunchd
    modifies owned, h`world, h`rest, h`still, h`log, h`mon
    ensures && h.Valid()
            && owned.Valid(h)
            && r == Ok
            && owned.verified
            && owned.processVerified
            && owned.identity == old(owned.identity)
  {
    hide ValidRecord, Step, Watch, WellFormed, Host.Separate, FIXED_LABEL, JobReadBack, FailedReadBack, JobGone,
      JobConfirmed, JobProof, JobSlotOnly, Shown, Unloaded, Placed;
    ghost var a;
    r, a := owned.BootstrapJob(h);
    r := owned.ActivateAndVerify(h);
  }

  /** That limbo is reached: launchd balks at the first bootstrap, comes round, and the job is adopted. */
  method AdoptedAfterAmbiguity(h: Host, candidate: JobRecord) returns (owned: OwnedJob, first: Answer, second: Answer)
    requires h.Valid() && h.exclusive && h.truthful && h.balkingLaunchd
    requires ValidRecord(candidate) && Unloaded(h.world, candidate)
    modifies h`obligingLaunchd, h`balkingLaunchd, h`world, h`rest, h`still, h`log, h`mon
    ensures h.Valid() && owned.Valid(h)
    ensures first == Ambiguous && second == Ok && owned.identity == candidate && owned.verified && owned.processVerified
  {
    hide ValidRecord, Step, Watch, WellFormed, Host.Separate, FIXED_LABEL, JobReadBack, FailedReadBack, JobGone,
      JobConfirmed, JobProof, JobSlotOnly, Loaded, Shown, Unloaded, Placed;
    owned := new OwnedJob();
    var r := owned.Prepare(h, candidate);
    ghost var a;
    first, a := owned.BootstrapJob(h);
    h.ComeRound();
    second := AdoptedFromLimbo(h, owned);
  }
}
