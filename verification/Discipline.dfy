/**
 What a call needs to have behind it before the lifecycle may issue it, and the order in which a run
 may issue calls at all. The monitor checks both step by step; `Safe` and `InOrder` say the same about
 a whole log without it.
 */
module Discipline {
  import opened Basics
  import opened Records
  import opened Commands

  datatype Event =
    | NameProbe(name: string, probe: Probe)
    | UidProbe(uid: nat, probe: Probe)
    | GuidProbe(guid: string, probe: Probe)
    | CreateAccount(account: AccountRecord, answer: Answer)
    | ReadAccount(name: string, account?: Option<AccountRecord>)
    | DeleteAccount(account: AccountRecord, answer: Answer, hit: Option<Account>, sure: bool)
    | LabelProbe(jobLabel: string, probe: Probe)
    | MachProbe(mach: string, probe: Probe)
    | Bootstrap(job: JobRecord, answer: Answer)
    | ReadJob(jobLabel: string, job?: Option<JobRecord>)
    | Activate(job: JobRecord, answer: Answer)
    | VerifyProcess(job: JobRecord, ok: bool)
    | ExerciseDenial(job: JobRecord, ok: bool)
    | StopProcess(job: JobRecord, answer: Answer, hitJob: Option<Job>, sure: bool)
    | Bootout(job: JobRecord, answer: Answer, hitJob: Option<Job>, sure: bool)
    | Opened(key: Key, ino: nat)
    | Unlinked(key: Key, ino: nat, sure: bool)
    | Executed(key: Key, ino: nat, bytes: seq<Byte>, mode: nat, owner: nat, group: nat, ok: bool)
    | DenialProbed(job: JobRecord, pid: nat, ok: bool)
    | BindArtifacts(ok: bool)
    | RunCommand(args: seq<string>, output: Option<CommandOutput>)
    | FolderPath(dir: nat, path: Option<string>)
      // marks left by the lifecycle code itself, not calls
    | RunStarted
    | AccountPrepared(account: AccountRecord)
    | AccountVerified(account: AccountRecord)
    | AccountForgotten(account: AccountRecord)
    | JobPrepared(job: JobRecord)
    | JobVerified(job: JobRecord)
    | JobForgotten(job: JobRecord)
    | FileVerified(key: Key, ino: nat, bytes: seq<Byte>, mode: nat, owner: nat, group: nat)
    | FilePublished(key: Key, bytes: seq<Byte>, mode: nat, owner: nat, group: nat)
    | ProcessVerified(job: JobRecord)

  /** All that happened, latest last. */
  datatype Log = Start | Then(past: Log, last: Event)

  /** All three names of a candidate account answered absent, one after the other. */
  predicate AccountFree(l: Log, r: AccountRecord) {
    && l.Then? && l.last == GuidProbe(r.generatedUid, Absent)
    && l.past.Then? && l.past.last == UidProbe(r.uniqueId, Absent)
    && l.past.past.Then? && l.past.past.last == NameProbe(r.name, Absent)
  }

  /** A create that answered OK, read back as the exact record, with all three names present. */
  predicate AccountProof(l: Log, r: AccountRecord) {
    && l.Then? && l.last == GuidProbe(r.generatedUid, Present)
    && l.past.Then? && l.past.last == UidProbe(r.uniqueId, Present)
    && l.past.past.Then? && l.past.past.last == NameProbe(r.name, Present)
    && AccountRead(l.past.past.past, r)
    && l.past.past.past.past.Then? && l.past.past.past.past.last == CreateAccount(r, Ok)
  }

  function ReadBack(l: Log, r: AccountRecord): Log {
    Then(Then(Then(Then(l, ReadAccount(r.name, Some(r))), NameProbe(r.name, Present)), UidProbe(r.uniqueId, Present)),
         GuidProbe(r.generatedUid, Present))
  }

  predicate AccountRead(l: Log, r: AccountRecord) {
    l.Then? && l.last == ReadAccount(r.name, Some(r))
  }

  predicate JobGone(l: Log, j: JobRecord) {
    && l.Then? && l.last == MachProbe(j.machService, Absent)
    && l.past.Then? && l.past.last == LabelProbe(j.jobLabel, Absent)
  }

  /** A loaded job read back as the exact record, with its label and Mach name present. */
  predicate JobConfirmed(l: Log, j: JobRecord) {
    && l.Then? && l.last == MachProbe(j.machService, Present)
    && l.past.Then? && l.past.last == LabelProbe(j.jobLabel, Present)
    && l.past.past.Then? && l.past.past.last == ReadJob(j.jobLabel, Some(j))
  }

  function JobReadBack(l: Log, j: JobRecord): Log {
    Then(Then(Then(l, ReadJob(j.jobLabel, Some(j))), LabelProbe(j.jobLabel, Present)),
         MachProbe(j.machService, Present))
  }

  predicate JobProof(l: Log, j: JobRecord) {
    JobConfirmed(l, j) && l.past.past.past.Then? && l.past.past.past.last == Bootstrap(j, Ok)
  }

  predicate ProcessConfirmed(l: Log, j: JobRecord) {
    l.Then? && l.last == VerifyProcess(j, true) && JobConfirmed(l.past, j)
  }

  /** An activation that answered OK, and then a look that found the process. */
  predicate ProcessProof(l: Log, j: JobRecord) {
    && l.Then? && l.last == VerifyProcess(j, true)
    && l.past.Then? && l.past.last == Activate(j, Ok)
  }

  /** A file was just found with these contents and attributes; `ino` is its inode. */
  predicate JustVerified(l: Log, k: Key, bytes: seq<Byte>, mode: nat, owner: nat, group: nat) {
    l.Then? && l.last.FileVerified? && l.last == FileVerified(k, l.last.ino, bytes, mode, owner, group)
  }

  // ---- the rules, over whole logs ----

  /** It happened in the current run. */
  predicate Has(l: Log, e: Event) {
    l.Then? && (l.last == e || (l.last != RunStarted && Has(l.past, e)))
  }

  /** The licence of an event, given everything before it. */
  predicate Licensed(past: Log, e: Event) {
    match e
    case AccountPrepared(r) => AccountFree(past, r)
    case CreateAccount(r, _) => Has(past, AccountPrepared(r))
    case AccountVerified(r) => AccountProof(past, r)
    case DeleteAccount(r, _, hit, sure) =>
      Has(past, AccountVerified(r)) && AccountRead(past, r) && (sure && hit.Some? ==> hit.value == Complete(r))
    case AccountForgotten(r) => AccountFree(past, r)
    case JobPrepared(j) => JobGone(past, j)
    case Bootstrap(j, _) => Has(past, JobPrepared(j))
    case JobVerified(j) => JobProof(past, j)
    case Activate(j, _) => Has(past, JobVerified(j)) && JobConfirmed(past, j)
    case ExerciseDenial(j, _) => Has(past, Activate(j, Ok)) && ProcessConfirmed(past, j)
    case StopProcess(j, _, hit, sure) =>
      Has(past, JobVerified(j)) && JobConfirmed(past, j) && (sure && hit.Some? ==> Alike(hit.value.record, j))
    case Bootout(j, _, hit, sure) =>
      Has(past, JobVerified(j)) && JobConfirmed(past, j) && (sure && hit.Some? ==> Alike(hit.value.record, j))
    case JobForgotten(j) => JobGone(past, j)
    case Unlinked(k, ino, sure) => sure ==> Has(past, Opened(k, ino))
    case Executed(k, ino, bytes, mode, owner, group, _) =>
      past.Then? && past.last == FileVerified(k, ino, bytes, mode, owner, group) && Has(past.past, Opened(k, ino))
    case FilePublished(k, bytes, mode, owner, group) =>
      JustVerified(past, k, bytes, mode, owner, group) && Has(past.past, Opened(k, past.last.ino))
    case ProcessVerified(j) => ProcessProof(past, j)
    case _ => true
  }

  /** Every event of the log had its licence when it happened. */
  predicate Safe(l: Log) {
    l.Then? ==> Safe(l.past) && Licensed(l.past, l.last)
  }

  /** The place of a deed in a run: six steps forward, the binding among them, then five of cleanup. */
  function Rank(e: Event): Option<nat> {
    match e
    case CreateAccount(_, _) => Some(0)
    case Opened(k, _) => Some(if k.name == PLIST_NAME then 2 else 1)
    case BindArtifacts(ok) => if ok then Some(3) else None
    case Bootstrap(_, _) => Some(4)
    case Activate(_, _) => Some(5)
    case StopProcess(_, _, _, _) => Some(6)
    case Bootout(_, _, _, _) => Some(7)
    case Unlinked(k, _, _) => Some(if k.name == PLIST_NAME then 8 else 9)
    case DeleteAccount(_, _, _, _) => Some(10)
    case _ => None
  }

  /** The places of the deeds of the current run, in the order they were done. */
  function Deeds(l: Log): seq<nat> {
    if l.Start? || l.last == RunStarted then []
    else if Rank(l.last).Some? then Deeds(l.past) + [Rank(l.last).value] else Deeds(l.past)
  }

  /** The places of the forward steps. */
  const FORWARD: nat := 6

  /** Each deed at most once and in order; the forward steps without a gap from the first. */
  predicate InOrder(s: seq<nat>) {
    && (forall i, j | 0 <= i < j < |s| :: s[i] < s[j])
    && (forall i | 0 <= i < |s| :: s[i] < FORWARD ==> s[i] == i)
  }

  // ---- the same rules, one event at a time ----

  datatype Monitor = Monitor(
    safe: bool, ordered: bool, stage: nat,
    preparedAccounts: set<AccountRecord>, verifiedAccounts: set<AccountRecord>,
    preparedJobs: set<JobRecord>, verifiedJobs: set<JobRecord>, activated: set<JobRecord>,
    openFiles: set<(Key, nat)>,
    marks: set<Event>,             // what else of the run's progress the report speaks of
    accountOpen: bool,             // a create answered OK, and the record was not seen gone since
    jobOpen: bool,                 // a bootstrap may have had an effect, and the job was not seen gone since
    stopFailed: bool,              // a stop was not answered OK or no-effect
    jobDeeds: nat, forgotten: nat) // over all runs

  const FRESH := Monitor(true, true, 0, {}, {}, {}, {}, {}, {}, {}, false, false, false, 0, 0)

  /** Events that need no licence, are no deeds and teach nothing. */
  predicate Look(e: Event) {
    e.NameProbe? || e.UidProbe? || e.GuidProbe? || e.ReadAccount? || e.LabelProbe? || e.MachProbe? ||
    e.ReadJob? || e.VerifyProcess? || e.FileVerified? || e == BindArtifacts(false) || e.RunCommand? ||
    e.FolderPath? || e.DenialProbed?
  }

  predicate Permits(m: Monitor, past: Log, e: Event) {
    match e
    case AccountPrepared(r) => AccountFree(past, r)
    case CreateAccount(r, _) => r in m.preparedAccounts
    case AccountVerified(r) => AccountProof(past, r)
    case DeleteAccount(r, _, hit, sure) =>
      r in m.verifiedAccounts && AccountRead(past, r) && (sure && hit.Some? ==> hit.value == Complete(r))
    case AccountForgotten(r) => AccountFree(past, r)
    case JobPrepared(j) => JobGone(past, j)
    case Bootstrap(j, _) => j in m.preparedJobs
    case JobVerified(j) => JobProof(past, j)
    case Activate(j, _) => j in m.verifiedJobs && JobConfirmed(past, j)
    case ExerciseDenial(j, _) => j in m.activated && ProcessConfirmed(past, j)
    case StopProcess(j, _, hit, sure) =>
      j in m.verifiedJobs && JobConfirmed(past, j) && (sure && hit.Some? ==> Alike(hit.value.record, j))
    case Bootout(j, _, hit, sure) =>
      j in m.verifiedJobs && JobConfirmed(past, j) && (sure && hit.Some? ==> Alike(hit.value.record, j))
    case JobForgotten(j) => JobGone(past, j)
    case Unlinked(k, ino, sure) => sure ==> (k, ino) in m.openFiles
    case Executed(k, ino, bytes, mode, owner, group, _) =>
      past.Then? && past.last == FileVerified(k, ino, bytes, mode, owner, group) && (k, ino) in m.openFiles
    case FilePublished(k, bytes, mode, owner, group) =>
      JustVerified(past, k, bytes, mode, owner, group) && (k, past.last.ino) in m.openFiles
    case ProcessVerified(j) => ProcessProof(past, j)
    case _ => true
  }

  // what each part of the monitor makes of an event; a new run starts from scratch

  function PreparedAccounts(s: set<AccountRecord>, e: Event): set<AccountRecord> {
    match e case RunStarted => {} case AccountPrepared(r) => s + {r} case _ => s
  }

  function VerifiedAccounts(s: set<AccountRecord>, e: Event): set<AccountRecord> {
    match e case RunStarted => {} case AccountVerified(r) => s + {r} case _ => s
  }

  function PreparedJobs(s: set<JobRecord>, e: Event): set<JobRecord> {
    match e case RunStarted => {} case JobPrepared(j) => s + {j} case _ => s
  }

  function VerifiedJobs(s: set<JobRecord>, e: Event): set<JobRecord> {
    match e case RunStarted => {} case JobVerified(j) => s + {j} case _ => s
  }

  function Activated(s: set<JobRecord>, e: Event): set<JobRecord> {
    match e case RunStarted => {} case Activate(j, a) => if a == Ok then s + {j} else s case _ => s
  }

  function OpenFiles(s: set<(Key, nat)>, e: Event): set<(Key, nat)> {
    match e case RunStarted => {} case Opened(k, ino) => s + {(k, ino)} case _ => s
  }

  /** Published files, verified processes and successful denials. */
  predicate Remembered(e: Event) { e.FilePublished? || e.ProcessVerified? || (e.ExerciseDenial? && e.ok) }

  function Marks(s: set<Event>, e: Event): set<Event> {
    if e == RunStarted then {} else AddIf(s, Remembered(e), e)
  }

  function AddIf(s: set<Event>, b: bool, e: Event): set<Event> { if b then s + {e} else s }

  function AccountOpen(b: bool, e: Event): bool {
    match e
    case RunStarted => false
    case AccountForgotten(_) => false
    case CreateAccount(_, a) => b || a == Ok
    case _ => b
  }

  function JobOpen(b: bool, e: Event): bool {
    match e
    case RunStarted => false
    case JobForgotten(_) => false
    case Bootstrap(_, a) => b || a != NoEffect
    case _ => b
  }

  function StopFailed(b: bool, e: Event): bool {
    match e case RunStarted => false case StopProcess(_, a, _, _) => b || a !in {Ok, NoEffect} case _ => b
  }

  function JobDeed(e: Event): nat { if e.Activate? || e.ExerciseDenial? || e.StopProcess? || e.Bootout? then 1 else 0 }

  function Ordered(m: Monitor, e: Event): bool {
    if e == RunStarted then true
    else match Rank(e)
         case None => m.ordered
         case Some(r) => m.ordered && m.stage <= r && (r < FORWARD ==> r == m.stage)
  }

  function Stage(m: Monitor, e: Event): nat {
    if e == RunStarted then 0 else match Rank(e) case None => m.stage case Some(r) => r + 1
  }

  function Placed(m: Monitor, r: nat): Monitor {
    m.(ordered := m.ordered && m.stage <= r && (r < FORWARD ==> r == m.stage), stage := r + 1)
  }

  lemma PlacedKeeps(m: Monitor, r: nat)
    ensures var n := Placed(m, r);
            && n == m.(ordered := n.ordered, stage := n.stage) && n.stage == r + 1
            && (m.ordered && (if r < FORWARD then m.stage == r else m.stage <= r) ==> n.ordered)
  {
  }

  function Step(m: Monitor, past: Log, e: Event): Monitor {
    Monitor(m.safe && Permits(m, past, e), Ordered(m, e), Stage(m, e),
            PreparedAccounts(m.preparedAccounts, e), VerifiedAccounts(m.verifiedAccounts, e),
            PreparedJobs(m.preparedJobs, e), VerifiedJobs(m.verifiedJobs, e), Activated(m.activated, e),
            OpenFiles(m.openFiles, e), Marks(m.marks, e),
            AccountOpen(m.accountOpen, e), JobOpen(m.jobOpen, e), StopFailed(m.stopFailed, e),
            m.jobDeeds + JobDeed(e), m.forgotten + if e.JobForgotten? then 1 else 0)
  }

  function Watch(l: Log): Monitor {
    match l
    case Start => FRESH
    case Then(past, e) => Step(Watch(past), past, e)
  }

  lemma StepLook(m: Monitor, past: Log, e: Event)
    requires Look(e)
    ensures Step(m, past, e) == m
  {
  }

  lemma StepPrepared(m: Monitor, past: Log, r: AccountRecord)
    requires AccountFree(past, r)
    ensures Step(m, past, AccountPrepared(r)) == m.(preparedAccounts := m.preparedAccounts + {r})
  {
  }

  lemma StepCreated(m: Monitor, past: Log, r: AccountRecord, a: Answer)
    requires r in m.preparedAccounts
    ensures Step(m, past, CreateAccount(r, a)) == Placed(m.(accountOpen := m.accountOpen || a == Ok), 0)
  {
  }

  lemma StepVerified(m: Monitor, past: Log, r: AccountRecord)
    requires AccountProof(past, r)
    ensures Step(m, past, AccountVerified(r)) == m.(verifiedAccounts := m.verifiedAccounts + {r})
  {
  }

  lemma StepDeleted(m: Monitor, past: Log, r: AccountRecord, a: Answer, hit: Option<Account>, sure: bool)
    requires r in m.verifiedAccounts && AccountRead(past, r) && (sure && hit.Some? ==> hit.value == Complete(r))
    ensures Step(m, past, DeleteAccount(r, a, hit, sure)) == Placed(m, 10)
  {
  }

  lemma StepAccountForgotten(m: Monitor, past: Log, r: AccountRecord)
    requires AccountFree(past, r)
    ensures Step(m, past, AccountForgotten(r)) == m.(accountOpen := false)
  {
  }

  lemma StepUnlinked(m: Monitor, past: Log, k: Key, ino: nat, sure: bool)
    requires sure ==> (k, ino) in m.openFiles
    ensures Step(m, past, Unlinked(k, ino, sure)) == Placed(m, if k.name == PLIST_NAME then 8 else 9)
  {
  }

  lemma StepExecuted(m: Monitor, past: Log, k: Key, ino: nat, bytes: seq<Byte>, mode: nat, owner: nat, group: nat,
                     ok: bool)
    requires past.Then? && past.last == FileVerified(k, ino, bytes, mode, owner, group) && (k, ino) in m.openFiles
    ensures Step(m, past, Executed(k, ino, bytes, mode, owner, group, ok)) == m
  {
  }

  lemma StepBound(m: Monitor, past: Log, ok: bool)
    ensures Step(m, past, BindArtifacts(ok)) == if ok then Placed(m, 3) else m
  {
  }

  lemma StepOpened(m: Monitor, past: Log, k: Key, ino: nat)
    ensures Step(m, past, Opened(k, ino)) == Placed(m.(openFiles := m.openFiles + {(k, ino)}),
                                                    if k.name == PLIST_NAME then 2 else 1)
  {
  }

  lemma StepRunStarted(m: Monitor, past: Log)
    ensures Step(m, past, RunStarted) == FRESH.(safe := m.safe, jobDeeds := m.jobDeeds, forgotten := m.forgotten)
  {
  }

  lemma StepJobPrepared(m: Monitor, past: Log, j: JobRecord)
    requires JobGone(past, j)
    ensures Step(m, past, JobPrepared(j)) == m.(preparedJobs := m.preparedJobs + {j})
  {
  }

  lemma StepBootstrapped(m: Monitor, past: Log, j: JobRecord, a: Answer)
    requires j in m.preparedJobs
    ensures Step(m, past, Bootstrap(j, a)) == Placed(m.(jobOpen := m.jobOpen || a != NoEffect), 4)
  {
  }

  lemma StepJobVerified(m: Monitor, past: Log, j: JobRecord)
    requires JobProof(past, j)
    ensures Step(m, past, JobVerified(j)) == m.(verifiedJobs := m.verifiedJobs + {j})
  {
  }

  lemma StepActivated(m: Monitor, past: Log, j: JobRecord, a: Answer)
    requires j in m.verifiedJobs && JobConfirmed(past, j)
    ensures Step(m, past, Activate(j, a)) ==
            Placed(m.(jobDeeds := m.jobDeeds + 1, activated := if a == Ok then m.activated + {j} else m.activated), 5)
  {
  }

  lemma StepDenied(m: Monitor, past: Log, j: JobRecord, ok: bool)
    requires j in m.activated && ProcessConfirmed(past, j)
    ensures Step(m, past, ExerciseDenial(j, ok)) ==
            m.(jobDeeds := m.jobDeeds + 1, marks := AddIf(m.marks, ok, ExerciseDenial(j, true)))
  {
  }

  lemma StepProcessVerified(m: Monitor, past: Log, j: JobRecord)
    requires ProcessProof(past, j)
    ensures Step(m, past, ProcessVerified(j)) == m.(marks := m.marks + {ProcessVerified(j)})
  {
  }

  lemma StepFilePublished(m: Monitor, past: Log, k: Key, bytes: seq<Byte>, mode: nat, owner: nat, group: nat)
    requires JustVerified(past, k, bytes, mode, owner, group) && (k, past.last.ino) in m.openFiles
    ensures Step(m, past, FilePublished(k, bytes, mode, owner, group)) ==
            m.(marks := m.marks + {FilePublished(k, bytes, mode, owner, group)})
  {
  }

  lemma StepStopped(m: Monitor, past: Log, j: JobRecord, a: Answer, hit: Option<Job>, sure: bool)
    requires j in m.verifiedJobs && JobConfirmed(past, j) && (sure && hit.Some? ==> Alike(hit.value.record, j))
    ensures Step(m, past, StopProcess(j, a, hit, sure)) ==
            Placed(m.(jobDeeds := m.jobDeeds + 1, stopFailed := m.stopFailed || a !in {Ok, NoEffect}), 6)
  {
  }

  lemma StepBootedOut(m: Monitor, past: Log, j: JobRecord, a: Answer, hit: Option<Job>, sure: bool)
    requires j in m.verifiedJobs && JobConfirmed(past, j) && (sure && hit.Some? ==> Alike(hit.value.record, j))
    ensures Step(m, past, Bootout(j, a, hit, sure)) == Placed(m.(jobDeeds := m.jobDeeds + 1), 7)
  {
  }

  lemma StepForgotten(m: Monitor, past: Log, j: JobRecord)
    requires JobGone(past, j)
    ensures Step(m, past, JobForgotten(j)) == m.(forgotten := m.forgotten + 1, jobOpen := false)
  {
  }

  lemma {:induction false} KnowsPreparedAccount(l: Log, r: AccountRecord)
    ensures r in Watch(l).preparedAccounts <==> Has(l, AccountPrepared(r))
  {
    hide Permits, Ordered, Stage, VerifiedAccounts, PreparedJobs, VerifiedJobs, Activated, OpenFiles, Marks,
      AccountOpen, JobOpen, StopFailed;
    if l.Then? { KnowsPreparedAccount(l.past, r); }
  }

  lemma {:induction false} KnowsVerifiedAccount(l: Log, r: AccountRecord)
    ensures r in Watch(l).verifiedAccounts <==> Has(l, AccountVerified(r))
  {
    hide Permits, Ordered, Stage, PreparedAccounts, PreparedJobs, VerifiedJobs, Activated, OpenFiles, Marks,
      AccountOpen, JobOpen, StopFailed;
    if l.Then? { KnowsVerifiedAccount(l.past, r); }
  }

  lemma {:induction false} KnowsPreparedJob(l: Log, j: JobRecord)
    ensures j in Watch(l).preparedJobs <==> Has(l, JobPrepared(j))
  {
    hide Permits, Ordered, Stage, PreparedAccounts, VerifiedAccounts, VerifiedJobs, Activated, OpenFiles, Marks,
      AccountOpen, JobOpen, StopFailed;
    if l.Then? { KnowsPreparedJob(l.past, j); }
  }

  lemma {:induction false} KnowsVerifiedJob(l: Log, j: JobRecord)
    ensures j in Watch(l).verifiedJobs <==> Has(l, JobVerified(j))
  {
    hide Permits, Ordered, Stage, PreparedAccounts, VerifiedAccounts, PreparedJobs, Activated, OpenFiles, Marks,
      AccountOpen, JobOpen, StopFailed;
    if l.Then? { KnowsVerifiedJob(l.past, j); }
  }

  lemma {:induction false} KnowsActivated(l: Log, j: JobRecord)
    ensures j in Watch(l).activated <==> Has(l, Activate(j, Ok))
  {
    hide Permits, Ordered, Stage, PreparedAccounts, VerifiedAccounts, PreparedJobs, VerifiedJobs, OpenFiles,
      Marks, AccountOpen, JobOpen, StopFailed;
    if l.Then? { KnowsActivated(l.past, j); }
  }

  lemma WatchFiles(l: Log)
    requires l.Then?
    ensures Watch(l).openFiles == OpenFiles(Watch(l.past).openFiles, l.last)
  {
    hide Permits, Ordered, Stage, PreparedAccounts, VerifiedAccounts, PreparedJobs, VerifiedJobs, Activated, OpenFiles,
      Marks, AccountOpen, JobOpen, StopFailed;
  }

  lemma {:induction false} KnowsFile(l: Log, k: Key, ino: nat)
    ensures (k, ino) in Watch(l).openFiles <==> Has(l, Opened(k, ino))
  {
    hide Step;
    if l.Then? {
      KnowsFile(l.past, k, ino);
      WatchFiles(l);
      hide Watch;
    }
  }

  lemma {:induction false} KnowsMark(l: Log, e: Event)
    requires Remembered(e)
    ensures e in Watch(l).marks <==> Has(l, e)
  {
    hide Permits, Ordered, Stage, PreparedAccounts, VerifiedAccounts, PreparedJobs, VerifiedJobs, Activated, OpenFiles,
      AccountOpen, JobOpen, StopFailed;
    if l.Then? { KnowsMark(l.past, e); }
  }

  lemma PermitsExactlyLicensed(l: Log, e: Event)
    ensures Permits(Watch(l), l, e) <==> Licensed(l, e)
  {
    hide Permits, Licensed;
    if e.StopProcess? || e.Bootout? || e.Activate? {
      PermitsVerifiedJob(l, e);
    } else if e.Bootstrap? || e.ExerciseDenial? {
      PermitsKnownJob(l, e);
    } else if e.CreateAccount? || e.DeleteAccount? {
      PermitsKnownAccount(l, e);
    } else {
      PermitsFile(l, e);
    }
  }

  lemma PermitsVerifiedJob(l: Log, e: Event)
    requires e.StopProcess? || e.Bootout? || e.Activate?
    ensures Permits(Watch(l), l, e) <==> Licensed(l, e)
  {
    hide Watch, Has, JobConfirmed;
    KnowsVerifiedJob(l, e.job);
  }

  lemma PermitsKnownJob(l: Log, e: Event)
    requires e.Bootstrap? || e.ExerciseDenial?
    ensures Permits(Watch(l), l, e) <==> Licensed(l, e)
  {
    hide Watch, Has, ProcessConfirmed;
    KnowsPreparedJob(l, e.job);
    KnowsActivated(l, e.job);
  }

  lemma PermitsKnownAccount(l: Log, e: Event)
    requires e.CreateAccount? || e.DeleteAccount?
    ensures Permits(Watch(l), l, e) <==> Licensed(l, e)
  {
    hide Watch, Has, AccountRead;
    KnowsPreparedAccount(l, e.account);
    KnowsVerifiedAccount(l, e.account);
  }

  /** Files, and everything that takes nothing remembered. */
  lemma PermitsFile(l: Log, e: Event)
    requires !e.StopProcess? && !e.Bootout? && !e.Activate? && !e.Bootstrap? && !e.ExerciseDenial?
    requires !e.CreateAccount? && !e.DeleteAccount?
    ensures Permits(Watch(l), l, e) <==> Licensed(l, e)
  {
    hide Watch, Has, AccountFree, AccountProof, JobGone, JobProof;
    if e.Unlinked? { KnowsFile(l, e.key, e.ino); }
    if e.FilePublished? && l.Then? && l.last.FileVerified? {
      KnowsFile(l.past, e.key, l.last.ino);
      ExecutedKnows(l, e.key, l.last.ino);
    }
    if e.Executed? && l.Then? {
      KnowsFile(l.past, e.key, e.ino);
      ExecutedKnows(l, e.key, e.ino);
    }
  }

  /** A verification of a file teaches nothing. */
  lemma ExecutedKnows(l: Log, k: Key, ino: nat)
    requires l.Then?
    ensures l.last.FileVerified? ==> Watch(l).openFiles == Watch(l.past).openFiles
  {
  }

  /** The monitor is exact about licences. */
  lemma {:induction false} WatchSafe(l: Log)
    ensures Watch(l).safe <==> Safe(l)
  {
    hide Permits, Licensed;
    if l.Then? {
      WatchSafe(l.past);
      PermitsExactlyLicensed(l.past, l.last);
    }
  }

  /** The monitor is exact about order. */
  lemma {:induction false} WatchOrdered(l: Log)
    ensures Watch(l).ordered <==> InOrder(Deeds(l))
    ensures Watch(l).stage == if Deeds(l) == [] then 0 else Deeds(l)[|Deeds(l)| - 1] + 1
  {
    hide Permits, Rank, InOrder;
    if l.Then? {
      WatchOrdered(l.past);
      if l.last != RunStarted && Rank(l.last).Some? {
        InOrderSnoc(Deeds(l.past), Rank(l.last).value);
      }
    }
    InOrderNothing();
  }

  lemma InOrderNothing()
    ensures InOrder([])
  {
  }

  lemma InOrderSnoc(s: seq<nat>, r: nat)
    ensures InOrder(s + [r]) <==>
            && InOrder(s) && (s != [] ==> s[|s| - 1] < r)
            && (r < FORWARD ==> r == if s == [] then 0 else s[|s| - 1] + 1)
  {
    var t := s + [r];
    assert t[|s|] == r && forall i | 0 <= i < |s| :: t[i] == s[i];
    if InOrder(t) {
      assert InOrder(s) by { assert forall i | 0 <= i < |s| :: t[i] == s[i]; }
      if s != [] {
        assert t[|s| - 1] < t[|s|];
        assert r < FORWARD ==> t[|s|] == |s| && t[|s| - 1] == |s| - 1;
      }
    }
    if InOrder(s) && s != [] && s[|s| - 1] < r {
      assert forall i | 0 <= i < |s| - 1 :: s[i] < s[|s| - 1];
      assert r < FORWARD ==> s[|s| - 1] == |s| - 1;
      assert forall i | 0 <= i < |s| :: t[i] < r;
    }
  }
}
