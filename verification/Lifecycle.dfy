/** The composite controller: preflight, five steps forward, and a cleanup that always runs. */
module Lifecycle {
  import opened Basics
  import opened Records
  import opened Discipline
  import opened HostModel
  import opened RetainedFiles
  import Account = AccountOwnership
  import Job = JobOwnership

  const BINARY_MODE: nat := 0x16d    // octal 0555
  const PLIST_MODE: nat := 0x1a4     // octal 0644

  datatype Request = Request(
    binaryParent: nat, plistParent: nat, binaryBytes: seq<Byte>, plistBytes: seq<Byte>,
    fileOwner: nat, fileGroup: nat, account: AccountRecord, job: JobRecord,
    sha256Hex: seq<Byte> -> string)
  {
    function BinaryKey(): Key { Key(binaryParent, BINARY_NAME) }
    function PlistKey(): Key { Key(plistParent, PLIST_NAME) }

    /** Both fixed children are among the entries this process may write. */
    predicate Claimed(h: Host) { BinaryKey() in h.keys && PlistKey() in h.keys }

    /** The part of a request that does not depend on the host. */
    predicate Consistent() {
      && 0 < |binaryBytes| <= MAX_FILE_BYTES && 0 < |plistBytes| <= MAX_FILE_BYTES
      && |job.binarySha256| == 64 && sha256Hex(binaryBytes) == job.binarySha256
      && |job.plistSha256| == 64 && sha256Hex(plistBytes) == job.plistSha256
    }
  }

  predicate SafeParent(f: Folder, owner: nat) {
    f.isDirectory && f.uid == owner && !f.othersWrite
  }

  /** Such a parent is a directory, belongs to the owner, and nobody else may write to it; the rest is free. */
  lemma SafeParentIs(f: Folder, owner: nat)
    ensures SafeParent(f, owner) <==> f == Folder(true, owner, false, f.hasAcl, f.path)
  {
  }

  /** Both parents as required. */
  ghost predicate SafeParents(o: Rest, q: Request) {
    && q.binaryParent in o.folders && SafeParent(o.folders[q.binaryParent], q.fileOwner)
    && q.plistParent in o.folders && SafeParent(o.folders[q.plistParent], q.fileOwner)
  }

  /** Both parents as required and every fixed name free. */
  ghost predicate Ready(w: World, o: Rest, q: Request) {
    && SafeParents(o, q)
    && q.BinaryKey() !in w.entries && q.PlistKey() !in w.entries
    && Account.Free(w, o, q.account) && Job.Unloaded(w, q.job)
  }

  ghost predicate FilesReady(directories: set<nat>, w: World, q: Request) {
    && q.binaryParent in directories && q.plistParent in directories
    && q.BinaryKey() !in w.entries && q.PlistKey() !in w.entries
  }

  datatype Report = Report(
    preflightComplete: bool, accountCreated: bool, binaryPublished: bool, plistPublished: bool,
    jobBootstrapped: bool, processActivated: bool, denialVerified: bool,
    cleanupAttempted: bool, jobCleanup: bool, plistCleanup: bool, binaryCleanup: bool, accountCleanup: bool,
    finalAbsence: bool, mutationComplete: bool, cleanupComplete: bool, manualRecovery: bool)

  const BLANK_REPORT := Report(false, false, false, false, false, false, false, false,
                               false, false, false, false, false, false, false, false)

  /** The report after the cleanup: complete when all five parts are, and otherwise a call for a manual recovery. */
  function Finished(installed: Report, job: bool, plist: bool, binary: bool, account: bool, absent: bool): Report {
    var complete := job && plist && binary && account && absent;
    installed.(cleanupAttempted := true, jobCleanup := job, plistCleanup := plist, binaryCleanup := binary,
    accountCleanup := account, finalAbsence := absent, cleanupComplete := complete,
    manualRecovery := !complete)
  }

  /** Nothing outside the fixed names differs: what the run may touch is its own four slots and its own inodes. */
  ghost predicate Outside(w0: World, w: World, q: Request) {
    && w.accounts - {ACCOUNT_NAME} == w0.accounts - {ACCOUNT_NAME}
    && w.jobs - {q.job.jobLabel} == w0.jobs - {q.job.jobLabel}
    && w.machs - {q.job.machService} == w0.machs - {q.job.machService}
    && w.entries - {q.BinaryKey(), q.PlistKey()} == w0.entries - {q.BinaryKey(), q.PlistKey()}
    && w0.inodes.Keys <= w.inodes.Keys && (forall i <- w0.inodes :: w.inodes[i] == w0.inodes[i])
  }

  lemma NamesDiffer(q: Request)
    ensures q.BinaryKey() != q.PlistKey() && BINARY_NAME != PLIST_NAME
  {
    assert |PLIST_NAME| == |BINARY_NAME| + 6;
  }

  lemma FixedNamesAreValid()
    ensures ValidName(BINARY_NAME) && ValidName(PLIST_NAME)
  {
    hide Plain;
    PlainParts();
    PlainEndings();
    var a, b, c := "de.frederikstadler", ".bitwarden-agent", "-credential-bridge";
    PlainJoined(a, b);
    PlainJoined(a + b, c);
    PlainJoined(a + b + c, ".helper");
    PlainJoined(a + b + c + ".helper", ".plist");
    PlainName(BINARY_NAME);
    PlainName(PLIST_NAME);
  }

  method ChildAbsent(h: Host, k: Key) returns (absent: bool)
    requires h.Valid() && k in h.keys
    modifies h`world, h`rest, h`still
    ensures h.Looked()
    ensures absent ==> k !in h.world.entries
    ensures h.sturdyLooks && k !in h.world.entries ==> absent
  {
    var s := h.StatPath(k);
    absent := s.NotFound?;
  }

  method ParentDirectory(h: Host, dir: nat, owner: nat) returns (ok: bool)
    requires h.Valid()
    modifies h`world, h`rest, h`still
    ensures h.Looked()
    ensures ok ==> dir in h.rest.folders && SafeParent(h.rest.folders[dir], owner) && dir in h.directories
    ensures h.quiet && h.sturdyLooks && dir in h.rest.folders && SafeParent(h.rest.folders[dir], owner) ==> ok
  {
    var f := h.StatFolder(dir);
    ok := f.Some? && SafeParent(f.value, owner);
  }

  /** Accepted requests carry the digests of their own bytes, and name two safe directories. */
  method ValidRequest(h: Host, q: Request) returns (ok: bool)
    requires h.Valid()
    modifies h`world, h`rest, h`still
    ensures h.Looked()
    ensures ok ==> q.Consistent() && q.binaryParent in h.directories && q.plistParent in h.directories
    ensures h.quiet && ok ==> SafeParents(h.rest, q)
    ensures h.quiet && h.sturdyLooks && q.Consistent() && SafeParents(h.rest, q) ==> ok
  {
    ok := ParentDirectory(h, q.binaryParent, q.fileOwner);
    if !ok { return; }
    ok := ParentDirectory(h, q.plistParent, q.fileOwner);
    ok := ok && q.Consistent();
  }

  /** Accounts, jobs and Mach names are the same. */
  ghost predicate FilesOnly(w: World, v: World) {
    v == w.(entries := v.entries, inodes := v.inodes, held := v.held)
  }

  /** A cleanup touched nothing but one name and one inode, and if complete removed both. */
  ghost predicate Vanished(w: World, v: World, k: Key, ino: nat, complete: bool) {
    && v == w.(entries := v.entries, inodes := v.inodes, held := w.held - {ino})
    && v.entries - {k} == w.entries - {k} && v.inodes - {ino} == w.inodes - {ino}
    && (forall x <- v.entries :: x in w.entries && v.entries[x] == w.entries[x])
    && (complete ==> k !in v.entries && ino !in v.inodes)
  }

  ghost function FdSet(f: OwnedFile): set<nat> reads f {
    if f.fd.Some? then {f.fd.value} else {}
  }

  /** The folder in which this run has created the file of the record. */
  ghost function Dirs(f: OwnedFile): set<nat> reads f {
    if f.created && f.dir.Some? then {f.dir.value} else {}
  }

  /** At most these are left to be synced besides, and none of them when `done`. */
  ghost predicate Stored(u: Unsynced, v: Unsynced, fds: set<nat>, dirs: set<nat>, done: bool) {
    && v.files <= u.files + fds && v.folders <= u.folders + dirs
    && (done ==> fds !! v.files && dirs !! v.folders)
  }

  ghost predicate CleanedFolders(u: Unsynced, v: Unsynced, dirs: set<nat>, done: bool) {
    v.folders <= u.folders + dirs && (done ==> v.folders <= u.folders - dirs)
  }

  method FileCleanup(h: Host, f: OwnedFile) returns (complete: bool, ghost removed: bool)
    requires h.Valid() && f.Valid(h) && (f.created <==> f.fd.Some?)
    requires h.exclusive && f.created && f.inode != 0 ==> f.InPlace(h.world)
    modifies f, h`world, h`rest, h`still, h`unsynced, h`log, h`mon
    ensures h.Valid() && f.Valid(h) && f.fd.None? && !f.created && h.world.held == old(h.world.held) - old(FdSet(f))
    ensures h.unsynced.files == old(h.unsynced).files
    ensures CleanedFolders(old(h.unsynced), h.unsynced, old(Dirs(f)), complete)
    ensures !old(f.created) ==> complete && h.world == old(h.world) && h.log == old(h.log) && h.mon == old(h.mon)
    ensures (removed ==> old(f.created)) && (old(f.created) && complete ==> removed)
    ensures h.mon == if removed then Placed(old(h.mon), if old(f.name) == PLIST_NAME then 8 else 9) else old(h.mon)
    ensures h.log == old(h.log) || (h.log.Then? && h.log.past == old(h.log) && h.log.last.Unlinked?)
    ensures h.exclusive && old(f.created) ==> Vanished(old(h.world), h.world, old(f.Path()), old(f.fd).value, complete)
    // gone at the last look, whoever else writes
    ensures old(f.created) && complete ==> old(f.Path()) !in h.world.entries
    ensures h.exclusive && h.sturdyLooks && old(f.created) && old(f.inode) != 0 ==> complete
  {
    hide Step, Watch, Host.Separate;
    if !f.created {
      f.Close(h);
      return true, false;
    }
    ghost var w0, k, ino, m := h.world, f.Path(), f.fd.value, h.mon;
    if h.exclusive && f.inode != 0 { OnlyNameRemoved(w0, k, ino); }
    var r := f.Unlink(h);
    complete, removed := r == Ok, r == Ok || h.mon != m;
    f.Close(h);
  }

  /** Removing the only name of an inode and closing its descriptor leaves no trace of either. */
  lemma OnlyNameRemoved(w: World, k: Key, ino: nat)
    requires k in w.entries && w.entries[k] == ino && ino in w.inodes && w.inodes[ino].links == 1
    requires forall x <- w.entries :: x != k ==> w.entries[x] != ino
    ensures Release(RemoveEntry(w, k), ino) ==
            w.(entries := w.entries - {k}, inodes := w.inodes - {ino}, held := w.held - {ino})
  {
    var i := w.inodes[ino];
    assert w.inodes[ino := i.(links := 0)] - {ino} == w.inodes - {ino};
  }

  /** What a publish added, a complete cleanup takes away. */
  lemma Undone(w0: World, w: World, v: World, k: Key, ino: nat, i: Inode, done: bool)
    requires && WellFormed(w0)
             && k !in w0.entries
             && ino !in w0.inodes
             && w == WithFile(w0, k, ino, i)
             && Vanished(w, v, k, ino, done)
    ensures done ==> v == w0
    ensures v.entries - {k} == w0.entries - {k}
  {
    assert w.entries - {k} == w0.entries - {k} == w0.entries;
    assert w.inodes - {ino} == w0.inodes;
    assert ino !in w0.held;
    if done {
      assert v.entries == v.entries - {k};
      assert v.inodes == v.inodes - {ino};
      assert v.held == w0.held;
    }
  }

  /**
    Publishing a file and cleaning it up again, however far the publish got: a cleanup that reports success leaves
    the machine as it was, directory and inode table included, and with a sturdy file system it does.
   */
  method PublishThenRemove(h: Host, k: Key, bytes: seq<Byte>, mode: nat, owner: nat, group: nat)
    returns (r: Answer, complete: bool)
    requires h.Valid() && k in h.keys
    modifies h`world, h`rest, h`still, h`unsynced, h`interrupts, h`log, h`mon
    ensures h.Valid() && h.world.held == old(h.world.held)
    ensures r !in {Ok, Ambiguous} ==> complete && (h.exclusive ==> h.world == old(h.world))
    ensures complete ==> h.unsynced.folders <= old(h.unsynced).folders
    ensures h.exclusive && complete ==> h.world == old(h.world)
    ensures h.exclusive && h.sturdyLooks ==> complete
    ensures h.exclusive && h.sturdyFiles && Publishable(k.name, bytes, mode) && k.dir in h.directories &&
            k !in old(h.world).entries ==>
              r == Ok
  {
    hide Step, Watch, ValidName, Host.Separate, Vanished;
    var f := new OwnedFile();
    r := f.Publish(h, k.dir, k.name, bytes, mode, owner, group);
    ghost var w1, fd := h.world, f.fd;
    ghost var removed;
    complete, removed := FileCleanup(h, f);
    if h.exclusive && fd.Some? { Undone(old(h.world), w1, h.world, k, fd.value, w1.inodes[fd.value], complete); }
  }

  // ---- one run ----

  /** The report flags of the forward steps: each step needs the one before. */
  predicate Chain(r: Report) {
    && (r.denialVerified ==> r.processActivated) && (r.processActivated ==> r.jobBootstrapped)
    && (r.jobBootstrapped ==> r.plistPublished) && (r.plistPublished ==> r.binaryPublished)
    && (r.binaryPublished ==> r.accountCreated) && (r.accountCreated ==> r.preflightComplete)
    && r.mutationComplete == r.denialVerified
  }

  /** A record is blank, or holds the one file this run published under `k`. */
  ghost predicate Ours(h: Host, f: OwnedFile, k: Key) reads f, h {
    && f.Valid(h) && (f.created <==> f.fd.Some?)
    && (f.created ==> f.dir == Some(k.dir) && f.name == k.name)
  }

  /** While others leave the slots alone: new inodes are exactly the published ones, each under its one name. */
  ghost predicate FilesIn(w0: World, w: World, q: Request, b: OwnedFile, p: OwnedFile) reads b, p {
    && FdSet(b) !! FdSet(p) && (FdSet(b) + FdSet(p)) !! w0.inodes.Keys
    && w.inodes.Keys == w0.inodes.Keys + FdSet(b) + FdSet(p)
    && w.held == w0.held + FdSet(b) + FdSet(p)
    && (b.created && b.inode != 0 ==> b.InPlace(w)) && (p.created && p.inode != 0 ==> p.InPlace(w))
    && (!b.created ==> q.BinaryKey() !in w.entries) && (!p.created ==> q.PlistKey() !in w.entries)
  }

  /** Both children absent, the binary first. */
  method ChildrenAbsent(h: Host, q: Request) returns (absent: bool)
    requires h.Valid() && q.Claimed(h)
    modifies h`world, h`rest, h`still
    ensures h.Looked()
    ensures h.exclusive && absent ==> q.BinaryKey() !in h.world.entries && q.PlistKey() !in h.world.entries
    ensures h.exclusive && h.sturdyLooks && q.BinaryKey() !in h.world.entries && q.PlistKey() !in h.world.entries ==>
              absent
  {
    hide Step, Watch, WellFormed, Host.Separate, FIXED_LABEL;
    absent := ChildAbsent(h, q.BinaryKey());
    if !absent { return; }
    absent := ChildAbsent(h, q.PlistKey());
  }

  /** The account and then the job are taken on as candidates. */
  method PrepareBoth(h: Host, q: Request, account: Account.OwnedAccount, job: Job.OwnedJob) returns (ok: bool)
    requires h.Valid() && account.Valid(h) && job.Valid(h) && !account.prepared && job.Cleared() && q.Claimed(h)
    modifies account, job, h`world, h`rest, h`still, h`log, h`mon
    ensures h.Looked() && account.Valid(h) && job.Valid(h)
    ensures h.mon == old(h.mon).(preparedAccounts := h.mon.preparedAccounts, preparedJobs := h.mon.preparedJobs)
    ensures ok ==> account.prepared && account.identity == q.account && !account.created
                   && job.prepared
                   && job.identity == q.job
                   && !job.bootstrapAttempted
                   && !job.processVerified
                   && !job.denialVerified
    ensures h.exclusive && h.truthful && ok ==> ACCOUNT_NAME !in h.world.accounts && Job.Unloaded(h.world, q.job)
    ensures h.quiet && h.truthful && ok ==> Account.Free(h.world, h.rest, q.account)
    ensures h.quiet && h.truthful && h.obligingDirectory && h.obligingLaunchd &&
            Account.Free(h.world, h.rest, q.account) && Job.Unloaded(h.world, q.job) &&
            Account.ValidRecord(q.account) && Job.ValidRecord(q.job) ==>
              ok
  {
    hide Account.ValidRecord, Job.ValidRecord, Step, Watch, WellFormed, Host.Separate, AccountFree, JobGone,
      Account.Free, Job.Unloaded, FIXED_LABEL, UidTaken, GuidTaken;
    ok := PrepareAccount(h, q, account, job);
    if !ok { return; }
    Account.FixedName(q.account);
    var j := job.Prepare(h, q.job);
    ok := j == Ok;
  }

  /** The account first, while the job's record is blank. */
  method PrepareAccount(h: Host, q: Request, account: Account.OwnedAccount, ghost job: Job.OwnedJob) returns (ok: bool)
    requires h.Valid() && account.Valid(h) && job.Valid(h) && !account.prepared && job.Cleared()
    modifies account, h`world, h`rest, h`still, h`log, h`mon
    ensures h.Looked() && account.Valid(h) && job.Valid(h)
    ensures h.mon == old(h.mon).(preparedAccounts := h.mon.preparedAccounts)
    ensures ok ==> account.prepared && account.identity == q.account && !account.created
    ensures h.exclusive && h.truthful && ok ==> ACCOUNT_NAME !in h.world.accounts
    ensures h.quiet && h.truthful && ok ==> Account.Free(h.world, h.rest, q.account)
    ensures h.quiet && h.truthful && h.obligingDirectory && Account.Free(h.world, h.rest, q.account) &&
            Account.ValidRecord(q.account) ==>
              ok
  {
    hide Account.ValidRecord, Job.ValidRecord, Step, Watch, WellFormed, Host.Separate, AccountFree, Account.Free;
    var a := account.Prepare(h, q.account);
    ok := a == Ok;
    if ok { Account.FixedName(q.account); }
  }

  method Preflight(h: Host, q: Request, account: Account.OwnedAccount, job: Job.OwnedJob) returns (ok: bool)
    requires h.Valid() && account.Valid(h) && job.Valid(h) && !account.prepared && job.Cleared() && q.Claimed(h)
    modifies account, job, h`world, h`rest, h`still, h`log, h`mon
    ensures h.Looked() && account.Valid(h) && job.Valid(h)
    ensures h.mon == old(h.mon).(preparedAccounts := h.mon.preparedAccounts, preparedJobs := h.mon.preparedJobs)
    ensures ok ==> account.prepared && account.identity == q.account && !account.created
                   && job.prepared
                   && job.identity == q.job
                   && !job.bootstrapAttempted
                   && !job.processVerified
                   && !job.denialVerified
    ensures h.exclusive && ok ==> q.BinaryKey() !in h.world.entries && q.PlistKey() !in h.world.entries
    ensures h.exclusive && h.truthful && ok ==> ACCOUNT_NAME !in h.world.accounts && Job.Unloaded(h.world, q.job)
    ensures h.quiet && h.truthful && ok ==> Account.Free(h.world, h.rest, q.account)
    ensures h.quiet && h.truthful && h.sturdyLooks && h.obligingDirectory && h.obligingLaunchd &&
            Ready(h.world, h.rest, q) && Account.ValidRecord(q.account) && Job.ValidRecord(q.job) ==>
              ok
  {
    hide Account.ValidRecord, Job.ValidRecord, Step, Watch, WellFormed, Host.Separate, AccountFree, JobGone,
      Account.Free, Job.Unloaded, FIXED_LABEL, UidTaken, GuidTaken;
    ok := ChildrenAbsent(h, q);
    if !ok { return; }
    ok := PrepareBoth(h, q, account, job);
  }

  /** While others leave the slots alone a publish either changed nothing or made one file appear. */
  ghost predicate Appeared(w0: World, w: World, k: Key, f: OwnedFile) reads f {
    if f.created && f.fd.Some? then
      && k !in w0.entries && f.fd.value !in w0.inodes && f.fd.value in w.inodes && w.inodes[f.fd.value].links == 1
      && w == WithFile(w0, k, f.fd.value, w.inodes[f.fd.value])
      && (f.inode != 0 ==> f.inode == f.fd.value)
    else w == w0
  }

  /** The inode behind the record is exactly `i`. */
  ghost predicate Filled(w: World, f: OwnedFile, i: Inode) reads f {
    f.fd.Some? && f.fd.value in w.inodes && w.inodes[f.fd.value] == i
  }

  lemma AppearedNothing(w: World, k: Key, f: OwnedFile)
    requires f.fd.None?
    ensures Appeared(w, w, k, f)
  {
  }

  lemma AppearedElsewhere(w0: World, w: World, k: Key, f: OwnedFile, x: Key)
    requires Appeared(w0, w, k, f) && x != k
    ensures x in w.entries <==> x in w0.entries
  {
  }

  method PublishAs(h: Host, f: OwnedFile, k: Key, ghost other: OwnedFile, ghost otherKey: Key, bytes: seq<Byte>,
                   mode: nat, owner: nat, group: nat) returns (ok: bool)
    requires h.Valid() && Publishable(k.name, bytes, mode) && Ours(h, f, k) && f.fd.None? && k in h.keys
    requires other != f && Ours(h, other, otherKey)
    modifies f, h`world, h`rest, h`still, h`unsynced, h`interrupts, h`log, h`mon
    ensures h.Valid() && Ours(h, f, k) && Ours(h, other, otherKey) && (ok ==> f.created)
    ensures h.world.held == old(h.world.held) + FdSet(f) && FdSet(f) !! old(h.world.held)
    ensures Stored(old(h.unsynced), h.unsynced, FdSet(f), Dirs(f), ok)
    ensures !f.created ==> h.mon == old(h.mon)
    ensures h.mon == old(h.mon).(ordered := h.mon.ordered, stage := h.mon.stage, openFiles := h.mon.openFiles,
                     marks := AddIf(old(h.mon).marks, ok, FilePublished(k, bytes, mode, owner, group)))
    ensures var r := if k.name == PLIST_NAME then 2 else 1;
            f.created && old(h.mon.ordered && h.mon.stage == r) ==> h.mon.ordered && h.mon.stage == r + 1
    ensures h.exclusive ==> Appeared(old(h.world), h.world, k, f)
    ensures h.exclusive && ok ==> Filled(h.world, f, Inode(Regular, bytes, mode, owner, group, 1))
    ensures h.exclusive && h.sturdyLooks && f.created ==> f.inode != 0
    ensures h.exclusive && h.sturdyFiles && k !in old(h.world).entries && k.dir in h.directories ==> ok
  {
    hide Step, Watch, Host.Separate, ValidName, WellFormed, PLIST_NAME, WithFile;
    var r := f.Publish(h, k.dir, k.name, bytes, mode, owner, group);
    if f.created { StepOpened(old(h.mon), old(h.log), k, f.fd.value); }
    ok := r == Ok;
    if !ok { return; }
    NotePublished(h, k, bytes, mode, owner, group);
  }

  /** The mark of a file just created and verified. */
  ghost method NotePublished(h: Host, k: Key, bytes: seq<Byte>, mode: nat, owner: nat, group: nat)
    requires h.Valid() && JustVerified(h.log, k, bytes, mode, owner, group) && (k, h.log.last.ino) in h.mon.openFiles
    modifies h`log, h`mon
    ensures h.Valid() && h.mon == old(h.mon).(marks := old(h.mon).marks + {FilePublished(k, bytes, mode, owner, group)})
  {
    hide Step, Watch, Host.Separate, WellFormed;
    StepFilePublished(h.mon, h.log, k, bytes, mode, owner, group);
    h.Note(FilePublished(k, bytes, mode, owner, group));
  }

  /** The mark of a published binary: all may read and execute it. */
  function BinaryMark(q: Request): Event {
    FilePublished(q.BinaryKey(), q.binaryBytes, 5 * 64 + 5 * 8 + 5, q.fileOwner, q.fileGroup)
  }

  /** The mark of a published plist: all may read it, and its owner may write. */
  function PlistMark(q: Request): Event {
    FilePublished(q.PlistKey(), q.plistBytes, 6 * 64 + 4 * 8 + 4, q.fileOwner, q.fileGroup)
  }

  function FilesNoted(s: set<Event>, q: Request, binary: bool, plist: bool): set<Event> {
    AddIf(AddIf(s, binary, BinaryMark(q)), plist, PlistMark(q))
  }

  function JobNoted(s: set<Event>, q: Request, active: bool, denied: bool): set<Event> {
    AddIf(AddIf(s, active, ProcessVerified(q.job)), denied, ExerciseDenial(q.job, true))
  }

  lemma NothingNoted(s: set<Event>, q: Request)
    ensures FilesNoted(s, q, false, false) == JobNoted(s, q, false, false) == s
  {
  }

  /** Publish the binary, and then the plist. */
  method PublishFiles(h: Host, q: Request, binary: OwnedFile, plist: OwnedFile)
    returns (binaryOk: bool, plistOk: bool, ghost mid: World)
    requires h.Valid() && binary != plist && q.Consistent() && q.Claimed(h)
    requires Ours(h, binary, q.BinaryKey()) && Ours(h, plist, q.PlistKey()) && binary.fd.None? && plist.fd.None?
    requires !binary.created && !plist.created
    modifies binary, plist, h`world, h`rest, h`still, h`unsynced, h`interrupts, h`log, h`mon
    ensures h.Valid() && Ours(h, binary, q.BinaryKey()) && Ours(h, plist, q.PlistKey())
    ensures (plistOk ==> binaryOk) && FdSet(binary) !! FdSet(plist)
    ensures && h.world.held == old(h.world.held) + FdSet(binary) + FdSet(plist)
            && (FdSet(binary) + FdSet(plist)) !! old(h.world.held)
    ensures Stored(old(h.unsynced), h.unsynced, FdSet(binary) + FdSet(plist), Dirs(binary) + Dirs(plist), plistOk)
    ensures (binaryOk ==> binary.created) && (plistOk ==> plist.created) && (plist.created ==> binaryOk)
    ensures h.mon == old(h.mon).(ordered := h.mon.ordered, stage := h.mon.stage, openFiles := h.mon.openFiles,
                     marks := FilesNoted(old(h.mon).marks, q, binaryOk, plistOk))
    ensures old(h.mon.ordered && h.mon.stage == 1) ==>
              h.mon.ordered && h.mon.stage == if plist.created then 3 else if binary.created then 2 else 1
    ensures h.exclusive ==>
              Appeared(old(h.world), mid, q.BinaryKey(), binary) && Appeared(mid, h.world, q.PlistKey(), plist)
    ensures h.exclusive && binaryOk ==>
              Filled(mid, binary, Inode(Regular, q.binaryBytes, BINARY_MODE, q.fileOwner, q.fileGroup, 1))
    ensures h.exclusive && plistOk ==>
              Filled(h.world, plist, Inode(Regular, q.plistBytes, PLIST_MODE, q.fileOwner, q.fileGroup, 1))
    ensures h.exclusive && h.sturdyLooks ==>
              (binary.created ==> binary.inode != 0) && (plist.created ==> plist.inode != 0)
    ensures (h.exclusive && h.sturdyFiles && FilesReady(h.directories, old(h.world), q)) ==> plistOk
  {
    hide Step, Watch, WellFormed, Host.Separate, FIXED_LABEL, ValidName, Account.Free, Job.Unloaded, Appeared, Placed,
      BINARY_NAME, PLIST_NAME, Filled, Ours;
    NamesDiffer(q);
    FixedNamesAreValid();
    binaryOk, plistOk := false, false;
    binaryOk := PublishAs(h, binary, q.BinaryKey(), plist, q.PlistKey(), q.binaryBytes, BINARY_MODE, q.fileOwner,
                          q.fileGroup);
    mid := h.world;
    if h.exclusive { AppearedElsewhere(old(h.world), mid, q.BinaryKey(), binary, q.PlistKey()); }
    AppearedNothing(mid, q.PlistKey(), plist);
    if !binaryOk { return; }
    plistOk := PublishAs(h, plist, q.PlistKey(), binary, q.BinaryKey(), q.plistBytes, PLIST_MODE, q.fileOwner,
                         q.fileGroup);
  }

  /** Publish both files and let the caller bind them. */
  method InstallFiles(h: Host, q: Request, binary: OwnedFile, plist: OwnedFile)
    returns (binaryOk: bool, plistOk: bool, bound: bool, ghost mid: World)
    requires h.Valid() && binary != plist && q.Consistent() && q.Claimed(h)
    requires Ours(h, binary, q.BinaryKey()) && Ours(h, plist, q.PlistKey()) && binary.fd.None? && plist.fd.None?
    modifies binary, plist, h`world, h`rest, h`still, h`unsynced, h`interrupts, h`log, h`mon
    ensures h.Valid() && Ours(h, binary, q.BinaryKey()) && Ours(h, plist, q.PlistKey())
    ensures (bound ==> plistOk) && (plistOk ==> binaryOk) && FdSet(binary) !! FdSet(plist)
    ensures && h.world.held == old(h.world.held) + FdSet(binary) + FdSet(plist)
            && (FdSet(binary) + FdSet(plist)) !! old(h.world.held)
    ensures Stored(old(h.unsynced), h.unsynced, FdSet(binary) + FdSet(plist), Dirs(binary) + Dirs(plist), plistOk)
    ensures (binaryOk ==> binary.created) && (plistOk ==> plist.created) && (plist.created ==> binaryOk)
    ensures h.mon == old(h.mon).(ordered := h.mon.ordered, stage := h.mon.stage, openFiles := h.mon.openFiles,
                     marks := FilesNoted(old(h.mon).marks, q, binaryOk, plistOk))
    ensures old(h.mon.ordered && h.mon.stage == 1) ==>
              && h.mon.ordered
              && h.mon.stage == if bound then 4 else if plist.created then 3 else if binary.created then 2 else 1
    ensures h.exclusive ==>
              Appeared(old(h.world), mid, q.BinaryKey(), binary) && Appeared(mid, h.world, q.PlistKey(), plist)
    ensures h.exclusive && binaryOk ==>
              Filled(mid, binary, Inode(Regular, q.binaryBytes, BINARY_MODE, q.fileOwner, q.fileGroup, 1))
    ensures h.exclusive && plistOk ==>
              Filled(h.world, plist, Inode(Regular, q.plistBytes, PLIST_MODE, q.fileOwner, q.fileGroup, 1))
    ensures h.exclusive && h.sturdyLooks ==>
              (binary.created ==> binary.inode != 0) && (plist.created ==> plist.inode != 0)
    ensures (h.exclusive && h.sturdyFiles && FilesReady(h.directories, old(h.world), q)) ==>
              plistOk && (h.obligingLaunchd ==> bound)
  {
    hide Step, Watch, WellFormed, Host.Separate, FIXED_LABEL, ValidName, Account.Free, Job.Unloaded, Appeared,
      FilesReady, Filled;
    bound := false;
    binaryOk, plistOk, mid := PublishFiles(h, q, binary, plist);
    if !plistOk { return; }
    StepBound(h.mon, h.log, true);
    StepBound(h.mon, h.log, false);
    bound := h.Bind();
  }

  lemma FilesAppeared(w0: World, mid: World, w: World, q: Request, b: OwnedFile, p: OwnedFile)
    requires WellFormed(w0) && q.BinaryKey() !in w0.entries && q.PlistKey() !in w0.entries
    requires (b.created <==> b.fd.Some?) && (b.created ==> b.dir == Some(q.binaryParent) && b.name == BINARY_NAME)
    requires (p.created <==> p.fd.Some?) && (p.created ==> p.dir == Some(q.plistParent) && p.name == PLIST_NAME)
    requires Appeared(w0, mid, q.BinaryKey(), b) && Appeared(mid, w, q.PlistKey(), p)
    ensures FilesIn(w0, w, q, b, p)
  {
    hide FIXED_LABEL;
    NamesDiffer(q);
  }

  lemma AppearedOutside(w0: World, w: World, q: Request, k: Key, f: OwnedFile)
    requires Appeared(w0, w, k, f) && k in {q.BinaryKey(), q.PlistKey()}
    ensures Outside(w0, w, q)
    ensures FilesOnly(w0, w)
  {
    hide FIXED_LABEL;
    if f.created && f.fd.Some? {
      assert w.entries - {q.BinaryKey(), q.PlistKey()} == w0.entries - {q.BinaryKey(), q.PlistKey()};
    }
  }

  lemma OutsideTrans(a: World, b: World, c: World, q: Request)
    requires Outside(a, b, q) && Outside(b, c, q)
    ensures Outside(a, c, q)
  {
  }

  /** Bootstrap, activate, exercise the denial; stop at the first step that is not confirmed. */
  method InstallJob(h: Host, q: Request, job: Job.OwnedJob) returns (loaded: bool, active: bool, denied: bool)
    requires && h.Valid()
             && job.Valid(h)
             && job.prepared
             && job.identity == q.job
             && !job.bootstrapAttempted
             && !job.denialVerified
    modifies job, h`world, h`rest, h`still, h`log, h`mon
    ensures h.Valid() && job.Valid(h) && job.prepared && job.identity == q.job && h.world.held == old(h.world.held)
    ensures (denied ==> active) && (active ==> loaded)
    ensures loaded ==> job.bootstrapAttempted
    ensures active ==> q.job in h.mon.activated
    ensures h.mon == old(h.mon).(ordered := h.mon.ordered, stage := h.mon.stage, activated := h.mon.activated,
                     verifiedJobs := old(h.mon).verifiedJobs + if loaded then {q.job} else {},
                     marks := JobNoted(old(h.mon).marks, q, active, denied), jobDeeds := h.mon.jobDeeds,
                     jobOpen := h.mon.jobOpen)
    ensures !old(h.mon.jobOpen) ==> (h.mon.jobOpen <==> job.bootstrapAttempted)
    ensures old(h.mon.ordered && h.mon.stage == 4) ==> h.mon.ordered && h.mon.stage <= 6
    ensures h.exclusive ==> JobSlotOnly(old(h.world), h.world, q.job)
    ensures h.exclusive && h.truthful && h.obligingLaunchd ==> denied && job.verified && Job.Loaded(h.world, q.job)
  {
    hide Job.ValidRecord, Step, Watch, WellFormed, Host.Separate, FIXED_LABEL, JobSlotOnly, JobReadBack,
      Job.FailedReadBack, JobConfirmed, Placed;
    loaded, active, denied := false, false, false;
    ghost var w0 := h.world;
    loaded := LoadJob(h, q, job);
    if !loaded { return; }
    ghost var w1 := h.world;
    active, denied := UseJob(h, q, job);
    if h.exclusive { JobSlotTwice(w0, w1, h.world, q.job); }
  }

  /** Bootstrap. */
  method LoadJob(h: Host, q: Request, job: Job.OwnedJob) returns (loaded: bool)
    requires h.Valid() && job.Valid(h) && job.prepared && job.identity == q.job && !job.bootstrapAttempted
    modifies job`bootstrapAttempted, job`bootstrapped, job`verified, h`world, h`rest, h`still, h`log, h`mon
    ensures h.Valid() && job.Valid(h) && h.world.held == old(h.world.held)
    ensures loaded ==> job.bootstrapAttempted && job.verified
    ensures h.mon == old(h.mon).(ordered := h.mon.ordered, stage := h.mon.stage,
                     verifiedJobs := old(h.mon).verifiedJobs + if loaded then {q.job} else {},
                     jobOpen := old(h.mon.jobOpen) || job.bootstrapAttempted)
    ensures old(h.mon.ordered && h.mon.stage == 4) ==> h.mon.ordered && h.mon.stage == 5
    ensures h.exclusive ==> JobSlotOnly(old(h.world), h.world, q.job)
    ensures h.exclusive && h.truthful && h.obligingLaunchd ==> loaded && Job.Loaded(h.world, q.job)
  {
    hide Job.ValidRecord, Step, Watch, WellFormed, Host.Separate, FIXED_LABEL, JobSlotOnly, JobReadBack,
      Job.FailedReadBack, JobConfirmed, Placed, Job.Loaded;
    ghost var m, a := h.mon, Answer.Error;
    var r: Answer;
    r, a := job.BootstrapJob(h);
    BootstrapStep(m, h.mon, q.job, a != NoEffect, r == Ok);
    loaded := r == Ok;
  }

  /** Activate, exercise the denial. */
  method UseJob(h: Host, q: Request, job: Job.OwnedJob) returns (active: bool, denied: bool)
    requires && h.Valid()
             && job.Valid(h)
             && job.verified
             && !job.activationAttempted
             && job.identity == q.job
             && !job.denialVerified
    modifies job`verified, job`activationAttempted, job`processVerified, job`denialVerified, h`world, h`rest, h`still,
             h`log, h`mon
    ensures h.Valid() && job.Valid(h) && h.world.held == old(h.world.held)
    ensures denied ==> active
    ensures active ==> q.job in h.mon.activated
    ensures h.mon == old(h.mon).(ordered := h.mon.ordered, stage := h.mon.stage, activated := h.mon.activated,
                     marks := JobNoted(old(h.mon).marks, q, active, denied), jobDeeds := h.mon.jobDeeds)
    ensures old(h.mon.ordered && h.mon.stage == 5) ==> h.mon.ordered && h.mon.stage <= 6
    ensures h.exclusive ==> JobSlotOnly(old(h.world), h.world, q.job)
    ensures h.exclusive && h.truthful && h.obligingLaunchd && Job.Loaded(old(h.world), q.job) ==>
              denied && job.verified && Job.Loaded(h.world, q.job)
  {
    hide Job.ValidRecord, Step, Watch, WellFormed, Host.Separate, FIXED_LABEL, JobSlotOnly, JobReadBack,
      Job.FailedReadBack, JobConfirmed, Placed, Job.DenialNoted;
    active, denied := false, false;
    ghost var m := h.mon;
    var r := job.ActivateAndVerify(h);
    ActivationStep(m, h.mon, AddIf(m.marks, r == Ok, ProcessVerified(q.job)));
    active := r == Ok;
    if !active { return; }
    ghost var n := h.mon;
    r := job.Denial(h);
    DenialStep(n, h.mon, q.job, r == Ok);
    denied := r == Ok;
  }

  /** What an exercise of the denial does to the monitor, whether or not it got that far. */
  lemma DenialStep(m: Monitor, n: Monitor, j: JobRecord, ok: bool)
    requires n == if n.jobDeeds == m.jobDeeds then m else Job.DenialNoted(m, j, ok)
    requires ok ==> n.jobDeeds > m.jobDeeds
    ensures n == m.(jobDeeds := n.jobDeeds, marks := AddIf(m.marks, ok, ExerciseDenial(j, true)))
  {
  }

  /** What an activation does to the monitor, in a form that does not depend on whether it got that far. */
  lemma ActivationStep(m: Monitor, n: Monitor, marks: set<Event>)
    requires || (n == m && marks == m.marks)
             || n == Placed(m.(jobDeeds := m.jobDeeds + 1, activated := n.activated, marks := marks), 5)
    ensures n == m.(ordered := n.ordered, stage := n.stage, activated := n.activated, jobDeeds := n.jobDeeds,
                 marks := marks)
    ensures m.ordered && m.stage == 5 ==> n.ordered && 5 <= n.stage <= 6
  {
  }

  lemma BootstrapStep(m: Monitor, n: Monitor, j: JobRecord, tried: bool, taken: bool)
    requires var p := Placed(m.(jobOpen := m.jobOpen || tried), 4);
             n == if taken then p.(verifiedJobs := p.verifiedJobs + {j}) else p
    ensures n == m.(ordered := n.ordered, stage := n.stage, jobOpen := m.jobOpen || tried,
                 verifiedJobs := m.verifiedJobs + if taken then {j} else {})
    ensures m.ordered && m.stage == 4 ==> n.ordered && n.stage == 5
  {
  }

  /** The last look: every fixed name once more. */
  method FinalAbsence(h: Host, q: Request) returns (absent: bool)
    requires && h.Valid()
             && q.Claimed(h)
             && q.account.name == ACCOUNT_NAME
             && q.job.jobLabel == q.job.machService == FIXED_LABEL
    modifies h`world, h`rest, h`still, h`log, h`mon
    ensures h.Looked() && h.mon == old(h.mon)
    ensures h.exclusive && absent ==> q.BinaryKey() !in h.world.entries && q.PlistKey() !in h.world.entries
    ensures h.exclusive && h.truthful && absent ==> ACCOUNT_NAME !in h.world.accounts && Job.Unloaded(h.world, q.job)
    ensures h.quiet && h.truthful && absent ==> Account.Free(h.world, h.rest, q.account)
    ensures h.quiet && h.truthful && h.sturdyLooks && h.obligingDirectory && h.obligingLaunchd &&
            q.BinaryKey() !in h.world.entries && q.PlistKey() !in h.world.entries &&
            Account.Free(h.world, h.rest, q.account) && Job.Unloaded(h.world, q.job) ==>
              absent
  {
    hide Step, Watch, WellFormed, Host.Separate;
    absent := ChildrenAbsent(h, q);
    if !absent { return; }
    var n := h.ProbeName(q.account.name);
    if n != Absent { return false; }
    var u := h.ProbeUniqueId(q.account.uniqueId);
    if u != Absent { return false; }
    var g := h.ProbeGeneratedUid(q.account.generatedUid);
    if g != Absent { return false; }
    var l := h.ProbeLabel(q.job.jobLabel);
    if l != Absent { return false; }
    var m := h.ProbeMachService(q.job.machService);
    return m == Absent;
  }

  lemma NothingAppeared(w0: World, w: World, q: Request, b: OwnedFile, p: OwnedFile)
    requires AccountSlotOnly(w0, w, ACCOUNT_NAME) && b.fd.None? && p.fd.None? && !b.created && !p.created
    requires q.BinaryKey() !in w0.entries && q.PlistKey() !in w0.entries
    ensures FilesIn(w0, w, q, b, p) && Outside(w0, w, q)
  {
  }

  /** The file part of a run does not see the account and job slots. */
  lemma FilesInSlots(w0: World, w1: World, w: World, v: World, q: Request, b: OwnedFile, p: OwnedFile)
    requires AccountSlotOnly(w0, w1, ACCOUNT_NAME) && FilesIn(w1, w, q, b, p) && JobSlotOnly(w, v, q.job)
    ensures FilesIn(w0, v, q, b, p)
  {
  }

  lemma JobSlotOutside(w0: World, w: World, v: World, q: Request)
    requires Outside(w0, w, q) && JobSlotOnly(w, v, q.job)
    ensures Outside(w0, v, q) && v.accounts == w.accounts
  {
  }

  lemma FilesReadyAnyway(directories: set<nat>, w0: World, w: World, q: Request)
    requires AccountSlotOnly(w0, w, ACCOUNT_NAME)
    ensures FilesReady(directories, w, q) <==> FilesReady(directories, w0, q)
  {
  }

  /** The run has created a file under this key itself. */
  ghost predicate OpenedAs(files: set<(Key, nat)>, k: Key) { exists ino: nat :: (k, ino) in files }

  lemma CreatedMeansOpened(h: Host, f: OwnedFile, k: Key)
    requires Ours(h, f, k) && f.created
    ensures OpenedAs(h.mon.openFiles, k)
  {
    assert (Key(f.dir.value, f.name), f.fd.value) in h.mon.openFiles;
  }

  /** Behind a published file stands its creation in this run, behind a verified process an activation answered OK. */
  ghost predicate Traced(m: Monitor, q: Request, r: Report) {
    && (r.binaryPublished ==> OpenedAs(m.openFiles, q.BinaryKey()))
    && (r.plistPublished ==> OpenedAs(m.openFiles, q.PlistKey()))
    && (r.processActivated ==> q.job in m.activated)
  }

  /** The monitor remembers what the report says was done, and nothing else of the kind. */
  predicate Remembers(m: Monitor, q: Request, r: Report) {
    && m.verifiedAccounts == (if r.accountCreated then {q.account} else {})
    && m.verifiedJobs == (if r.jobBootstrapped then {q.job} else {})
    && m.marks ==
       JobNoted(FilesNoted({}, q, r.binaryPublished, r.plistPublished), q, r.processActivated, r.denialVerified)
  }

  /** Each flag of the forward steps says whether this very thing happened in the run. */
  predicate Happened(l: Log, q: Request, r: Report) {
    && (r.accountCreated <==> Has(l, AccountVerified(q.account)))
    && (r.binaryPublished <==> Has(l, BinaryMark(q)))
    && (r.plistPublished <==> Has(l, PlistMark(q)))
    && (r.jobBootstrapped <==> Has(l, JobVerified(q.job)))
    && (r.processActivated <==> Has(l, ProcessVerified(q.job)))
    && (r.denialVerified <==> Has(l, ExerciseDenial(q.job, true)))
  }

  lemma RemembersSame(m: Monitor, n: Monitor, q: Request, r: Report, s: Report)
    requires Remembers(m, q, r) && Traced(m, q, r) && Chain(r)
    requires n.verifiedAccounts == m.verifiedAccounts && n.verifiedJobs == m.verifiedJobs && n.marks == m.marks
    requires n.activated == m.activated && n.openFiles == m.openFiles
    requires s == Finished(r, s.jobCleanup, s.plistCleanup, s.binaryCleanup, s.accountCleanup, s.finalAbsence)
    ensures Remembers(n, q, s) && Traced(n, q, s) && Chain(s)
  {
  }

  lemma RememberedHappened(l: Log, q: Request, r: Report)
    requires Remembers(Watch(l), q, r)
    ensures Happened(l, q, r)
  {
    hide Watch, Has, BINARY_NAME, PLIST_NAME;
    NamesDiffer(q);
    KnowsVerifiedAccount(l, q.account);
    KnowsVerifiedJob(l, q.job);
    KnowsMark(l, BinaryMark(q));
    KnowsMark(l, PlistMark(q));
    KnowsMark(l, ProcessVerified(q.job));
    KnowsMark(l, ExerciseDenial(q.job, true));
  }

  /** Where a run stands between its forward steps and its cleanup. */
  ghost predicate Midway(h: Host, q: Request, w0: World, account: Account.OwnedAccount, binary: OwnedFile,
                         plist: OwnedFile, job: Job.OwnedJob)
    reads h, account, binary, plist, job
  {
    && h.Valid()
    && account.Valid(h)
    && job.Valid(h)
    && Ours(h, binary, q.BinaryKey())
    && Ours(h, plist, q.PlistKey())
    && binary != plist
    && account.prepared && account.identity == q.account && job.prepared && job.identity == q.job
    && (h.mon.accountOpen <==> account.created)
    && (h.mon.jobOpen <==> job.bootstrapAttempted)
    && !h.mon.stopFailed
    && q.Claimed(h)
    && FdSet(binary) !! FdSet(plist) && h.mon.ordered && h.mon.stage <= 6
    && (h.exclusive ==> Outside(w0, h.world, q) && FilesIn(w0, h.world, q, binary, plist))
    && (h.exclusive && h.sturdyLooks ==> (binary.created ==> binary.inode != 0) && (plist.created ==> plist.inode != 0))
    && (h.exclusive && h.truthful && h.obligingDirectory ==>
          account.verified && h.Holds(q.account))
    && (h.exclusive && h.truthful && h.obligingLaunchd ==>
          if job.bootstrapAttempted then job.verified && Job.Loaded(h.world, q.job) else Job.Unloaded(h.world, q.job))
  }

  /** The account and then both files. */
  method InstallArtifacts(h: Host, q: Request, account: Account.OwnedAccount, binary: OwnedFile, plist: OwnedFile)
    returns (accountOk: bool, binaryOk: bool, plistOk: bool, bound: bool)
    requires h.Valid() && account.Valid(h) && binary != plist && q.Consistent() && q.Claimed(h)
    requires account.prepared && account.identity == q.account && !account.created
    requires Ours(h, binary, q.BinaryKey()) && Ours(h, plist, q.PlistKey()) && binary.fd.None? && plist.fd.None?
    requires h.mon.ordered && h.mon.stage == 0
    requires h.exclusive ==> q.BinaryKey() !in h.world.entries && q.PlistKey() !in h.world.entries
    modifies account, binary, plist, h`world, h`rest, h`still, h`unsynced, h`interrupts, h`log, h`mon
    ensures && h.Valid()
            && account.Valid(h)
            && Ours(h, binary, q.BinaryKey())
            && Ours(h, plist, q.PlistKey())
            && FdSet(binary) !! FdSet(plist)
    ensures && h.world.held == old(h.world.held) + FdSet(binary) + FdSet(plist)
            && (FdSet(binary) + FdSet(plist)) !! old(h.world.held)
    ensures Stored(old(h.unsynced), h.unsynced, FdSet(binary) + FdSet(plist), Dirs(binary) + Dirs(plist), plistOk)
    ensures account.prepared && account.identity == q.account
    ensures (bound ==> plistOk) && (plistOk ==> binaryOk) && (binaryOk ==> accountOk)
    ensures (accountOk ==> account.created) && (binaryOk ==> binary.created) && (plistOk ==> plist.created)
    ensures h.mon == old(h.mon).(ordered := h.mon.ordered, stage := h.mon.stage, openFiles := h.mon.openFiles,
                     verifiedAccounts := old(h.mon).verifiedAccounts + if accountOk then {q.account} else {},
                     marks := FilesNoted(old(h.mon).marks, q, binaryOk, plistOk), accountOpen := h.mon.accountOpen)
    ensures h.mon.accountOpen == (old(h.mon.accountOpen) || account.created)
    ensures h.mon.ordered && h.mon.stage <= 4 && (bound ==> h.mon.stage == 4)
    ensures h.exclusive ==> Outside(old(h.world), h.world, q) && FilesIn(old(h.world), h.world, q, binary, plist)
    ensures h.exclusive ==> h.world.jobs == old(h.world).jobs && h.world.machs == old(h.world).machs
    ensures h.exclusive && h.sturdyLooks ==>
              (binary.created ==> binary.inode != 0) && (plist.created ==> plist.inode != 0)
    ensures h.exclusive && h.truthful && h.obligingDirectory ==>
              accountOk && account.verified && h.Holds(q.account)
    ensures h.exclusive && h.balkingDirectory ==> !accountOk && !account.created && h.Holds(q.account)
    ensures (h.exclusive && h.truthful && h.obligingDirectory && h.sturdyFiles &&
             FilesReady(h.directories, old(h.world), q)) ==> plistOk && (h.obligingLaunchd ==> bound)
  {
    hide Account.ValidRecord, Step, Watch, WellFormed, Host.Separate, FIXED_LABEL, ValidName, Outside, FilesIn,
      Appeared, FilesReady, Filled, AccountSlotOnly, FilesNoted;
    binaryOk, plistOk, bound := false, false, false;
    NothingNoted(h.mon.marks, q);
    ghost var w0 := h.world;
    accountOk := MakeAccount(h, q, account, binary, plist);
    ghost var w1 := h.world;
    if h.exclusive { NothingAppeared(w0, w1, q, binary, plist); }
    if !accountOk { return; }
    ghost var mid;
    binaryOk, plistOk, bound, mid := InstallFiles(h, q, binary, plist);
    if h.exclusive {
      FilesAppeared(w1, mid, h.world, q, binary, plist);
      ArtifactsAppeared(w0, w1, mid, h.world, q, binary, plist);
    }
  }

  /** The account; both file records are still blank. */
  method MakeAccount(h: Host, q: Request, account: Account.OwnedAccount, ghost binary: OwnedFile,
                     ghost plist: OwnedFile)
    returns (ok: bool)
    requires h.Valid() && account.Valid(h) && account.prepared && account.identity == q.account && !account.created
    requires Ours(h, binary, q.BinaryKey()) && Ours(h, plist, q.PlistKey()) && binary.fd.None? && plist.fd.None?
    requires h.mon.ordered && h.mon.stage == 0
    modifies account, h`world, h`rest, h`still, h`log, h`mon
    ensures h.Valid() && account.Valid(h) && Ours(h, binary, q.BinaryKey()) && Ours(h, plist, q.PlistKey())
    ensures account.prepared && account.identity == q.account && h.world.held == old(h.world.held)
    ensures ok ==> account.created
    ensures h.mon == old(h.mon).(ordered := true, stage := 1,
                     verifiedAccounts := old(h.mon).verifiedAccounts + if ok then {q.account} else {},
                     accountOpen := old(h.mon.accountOpen) || account.created)
    ensures h.exclusive ==>
              && AccountSlotOnly(old(h.world), h.world, ACCOUNT_NAME)
              && h.world.entries == old(h.world).entries && h.world.jobs == old(h.world).jobs
              && h.world.machs == old(h.world).machs
              && (FilesReady(h.directories, h.world, q) <==> FilesReady(h.directories, old(h.world), q))
    ensures h.exclusive && h.truthful && h.obligingDirectory ==> ok && account.verified && h.Holds(q.account)
    ensures h.exclusive && h.balkingDirectory ==> !ok && !account.created && h.Holds(q.account)
  {
    hide Account.ValidRecord, Step, Watch, WellFormed, Host.Separate, FIXED_LABEL, ValidName, FilesReady, Placed,
      AccountSlotOnly;
    ghost var w0, m := h.world, h.mon;
    ghost var answer;
    var a;
    a, answer := account.Create(h);
    ok := a == Ok;
    CreateStep(m, h.mon, q.account, answer == Ok, ok);
    if h.exclusive {
      SlotKeepsFiles(w0, h.world, q);
      FilesReadyAnyway(h.directories, w0, h.world, q);
    }
  }

  /** What a create does to the monitor. */
  lemma CreateStep(m: Monitor, n: Monitor, r: AccountRecord, made: bool, taken: bool)
    requires n == Placed(m.(accountOpen := m.accountOpen || made,
                                           verifiedAccounts := m.verifiedAccounts + if taken then {r} else {}), 0)
    ensures n == m.(ordered := n.ordered, stage := n.stage, accountOpen := m.accountOpen || made,
                 verifiedAccounts := m.verifiedAccounts + if taken then {r} else {})
    ensures m.ordered && m.stage == 0 ==> n.ordered && n.stage == 1
  {
  }

  lemma SlotKeepsFiles(w0: World, w: World, q: Request)
    requires AccountSlotOnly(w0, w, ACCOUNT_NAME)
    ensures w.entries == w0.entries && w.jobs == w0.jobs && w.machs == w0.machs
  {
  }

  /** The account first, and then both files: nothing outside the fixed names, and the files as recorded. */
  lemma ArtifactsAppeared(w0: World, w1: World, mid: World, w: World, q: Request, b: OwnedFile, p: OwnedFile)
    requires AccountSlotOnly(w0, w1, ACCOUNT_NAME) && Outside(w0, w1, q) && FilesIn(w1, w, q, b, p)
    requires Appeared(w1, mid, q.BinaryKey(), b) && Appeared(mid, w, q.PlistKey(), p)
    ensures Outside(w0, w, q) && FilesIn(w0, w, q, b, p) && w.jobs == w0.jobs && w.machs == w0.machs
    ensures w.accounts == w1.accounts
  {
    hide Outside, FilesIn, Appeared, FIXED_LABEL;
    SlotKeepsFiles(w0, w1, q);
    AppearedOutside(w1, mid, q, q.BinaryKey(), b);
    AppearedOutside(mid, w, q, q.PlistKey(), p);
    OutsideTrans(w1, mid, w, q);
    OutsideTrans(w0, w1, w, q);
    JobSlotSame(w, q.job);
    FilesInSlots(w0, w1, w, w, q, b, p);
  }

  method Install(h: Host, q: Request, account: Account.OwnedAccount, binary: OwnedFile, plist: OwnedFile,
                 job: Job.OwnedJob) returns (report: Report)
    requires h.Valid() && account.Valid(h) && job.Valid(h) && binary != plist && q.Consistent() && q.Claimed(h)
    requires account.prepared && account.identity == q.account && !account.created
    requires job.prepared && job.identity == q.job && !job.bootstrapAttempted && !job.denialVerified
    requires Ours(h, binary, q.BinaryKey()) && Ours(h, plist, q.PlistKey()) && binary.fd.None? && plist.fd.None?
    requires h.mon.ordered && h.mon.stage == 0 && !h.mon.accountOpen && !h.mon.jobOpen && !h.mon.stopFailed
    requires Remembers(h.mon, q, BLANK_REPORT)
    requires h.exclusive ==> q.BinaryKey() !in h.world.entries && q.PlistKey() !in h.world.entries
    requires h.exclusive && h.truthful ==> Job.Unloaded(h.world, q.job)
    modifies account, binary, plist, job, h`world, h`rest, h`still, h`unsynced, h`interrupts, h`log, h`mon
    ensures Midway(h, q, old(h.world), account, binary, plist, job)
    ensures && h.world.held == old(h.world.held) + FdSet(binary) + FdSet(plist)
            && (FdSet(binary) + FdSet(plist)) !! old(h.world.held)
    ensures Stored(old(h.unsynced), h.unsynced, FdSet(binary) + FdSet(plist), Dirs(binary) + Dirs(plist),
                   report.plistPublished)
    ensures h.mon.safe == old(h.mon.safe) && Chain(report)
    ensures report == BLANK_REPORT.(preflightComplete := true, accountCreated := report.accountCreated,
                      binaryPublished := report.binaryPublished,
                      plistPublished := report.plistPublished, jobBootstrapped := report.jobBootstrapped,
                      processActivated := report.processActivated,
                      denialVerified := report.denialVerified,
                      mutationComplete := report.denialVerified)
    ensures Remembers(h.mon, q, report) && Traced(h.mon, q, report) && (report.accountCreated ==> account.created)
    ensures h.exclusive && h.truthful && h.balkingDirectory ==> !account.created && h.Holds(q.account)
    ensures (h.exclusive && h.truthful && h.sturdyFiles && h.obligingDirectory && h.obligingLaunchd &&
             FilesReady(h.directories, old(h.world), q)) ==> report.denialVerified
  {
    hide Account.ValidRecord, Job.ValidRecord, Step, Watch, WellFormed, Host.Separate, FIXED_LABEL, ValidName, Outside,
      FilesIn, JobSlotOnly, FilesReady, FilesNoted, JobNoted, OpenedAs;
    NothingNoted({}, q);
    ghost var w0 := h.world;
    var a, b, p, bound := InstallArtifacts(h, q, account, binary, plist);
    report := BLANK_REPORT.(preflightComplete := true, accountCreated := a, binaryPublished := b, plistPublished := p);
    if b { CreatedMeansOpened(h, binary, q.BinaryKey()); }
    if p { CreatedMeansOpened(h, plist, q.PlistKey()); }
    NothingNoted(h.mon.marks, q);
    if !bound { return; }
    ghost var w2 := h.world;
    var loaded, active, denied := InstallJob(h, q, job);
    report := report.(jobBootstrapped := loaded, processActivated := active, denialVerified := denied,
    mutationComplete := denied);
    if h.exclusive {
      AccountSlotSame(w0, ACCOUNT_NAME);
      FilesInSlots(w0, w0, w2, h.world, q, binary, plist);
      JobSlotOutside(w0, w2, h.world, q);
    }
  }

  lemma SameElsewhere<K, V>(a: map<K, V>, b: map<K, V>, k: K)
    requires a - {k} == b - {k}
    ensures forall x :: x != k ==> (x in a <==> x in b) && (x in a ==> a[x] == b[x])
  {
    forall x | x != k ensures (x in a <==> x in b) && (x in a ==> a[x] == b[x]) {
      assert (x in a <==> x in a - {k}) && (x in b <==> x in b - {k});
      if x in a { assert (a - {k})[x] == (b - {k})[x]; }
    }
  }

  /** Removing one file leaves another in its place. */
  lemma StaysInPlace(w: World, v: World, f: OwnedFile, k: Key, ino: nat, complete: bool)
    requires f.InPlace(w) && f.Path() != k && f.inode != ino && Vanished(w, v, k, ino, complete)
    ensures f.InPlace(v)
  {
    SameElsewhere(v.entries, w.entries, k);
    SameElsewhere(v.inodes, w.inodes, ino);
  }

  lemma VanishedOutside(w0: World, w: World, v: World, q: Request, k: Key, ino: nat, complete: bool)
    requires && Outside(w0, w, q)
             && Vanished(w, v, k, ino, complete)
             && ino !in w0.inodes
             && k in {q.BinaryKey(), q.PlistKey()}
    ensures Outside(w0, v, q) && FilesOnly(w, v)
  {
    hide FIXED_LABEL;
    SameElsewhere(v.inodes, w.inodes, ino);
    SameElsewhere(v.entries, w.entries, k);
    assert v.entries - {q.BinaryKey(), q.PlistKey()} == w.entries - {q.BinaryKey(), q.PlistKey()};
  }

  lemma VanishedKeys(w: World, v: World, k: Key, ino: nat)
    requires Vanished(w, v, k, ino, true)
    ensures && v.inodes.Keys == w.inodes.Keys - {ino}
            && k !in v.entries
            && (forall x :: x !in w.entries ==> x !in v.entries)
  {
    SameElsewhere(v.inodes, w.inodes, ino);
  }

  /** One of the two files; nothing outside the fixed names is touched. */
  method CleanFile(h: Host, q: Request, ghost w0: World, f: OwnedFile, k: Key)
    returns (complete: bool, ghost removed: bool)
    requires h.Valid() && Ours(h, f, k) && k in {q.BinaryKey(), q.PlistKey()}
    requires h.exclusive ==> Outside(w0, h.world, q) && FdSet(f) !! w0.inodes.Keys
    requires h.exclusive && f.created && f.inode != 0 ==> f.InPlace(h.world)
    modifies f, h`world, h`rest, h`still, h`unsynced, h`log, h`mon
    ensures h.Valid() && h.world.held == old(h.world.held) - old(FdSet(f))
    ensures CleanedFolders(old(h.unsynced), h.unsynced, old(Dirs(f)), complete)
    ensures (removed ==> old(f.created)) && (old(f.created) && complete ==> removed)
    ensures h.mon == if removed then Placed(old(h.mon), if k.name == PLIST_NAME then 8 else 9) else old(h.mon)
    ensures h.mon == old(h.mon).(ordered := h.mon.ordered, stage := h.mon.stage)
    ensures var r := if k.name == PLIST_NAME then 8 else 9;
            && h.mon.stage == (if removed then r + 1 else old(h.mon.stage))
            && (old(h.mon.ordered && h.mon.stage <= r) ==> h.mon.ordered)
    ensures h.exclusive ==> && Outside(w0, h.world, q)
                            && FilesOnly(old(h.world), h.world)
                            && forall x :: x !in old(h.world).entries ==> x !in h.world.entries
    ensures h.exclusive && !old(f.created) ==> h.world == old(h.world) && complete
    ensures h.exclusive && old(f.created) ==> Vanished(old(h.world), h.world, k, old(f.fd).value, complete)
    ensures h.exclusive && complete ==> h.world.inodes.Keys == old(h.world).inodes.Keys - old(FdSet(f))
    ensures complete && old(f.created) ==> k !in h.world.entries
    ensures h.exclusive && h.sturdyLooks && (old(f.created) ==> old(f.inode) != 0) ==> complete
  {
    hide Step, Watch, FIXED_LABEL, ValidName, Outside, WellFormed, OwnedFile.InPlace, Host.Separate, Placed,
      BINARY_NAME, PLIST_NAME;
    ghost var w, fd := h.world, f.fd;
    PlacedKeeps(h.mon, if k.name == PLIST_NAME then 8 else 9);
    complete, removed := FileCleanup(h, f);
    if h.exclusive && fd.Some? {
      VanishedOutside(w0, w, h.world, q, k, fd.value, complete);
      if complete { VanishedKeys(w, h.world, k, fd.value); }
    }
  }

  lemma FilesInParts(w0: World, w: World, q: Request, b: OwnedFile, p: OwnedFile)
    requires FilesIn(w0, w, q, b, p)
    ensures FdSet(b) !! w0.inodes.Keys && FdSet(p) !! w0.inodes.Keys
    ensures w.inodes.Keys - FdSet(p) - FdSet(b) == w0.inodes.Keys
    ensures (b.created && b.inode != 0 ==> b.InPlace(w)) && (p.created && p.inode != 0 ==> p.InPlace(w))
    ensures (!b.created ==> q.BinaryKey() !in w.entries) && (!p.created ==> q.PlistKey() !in w.entries)
  {
    hide OwnedFile.InPlace, FIXED_LABEL;
  }

  /** Both files, plist first; a failure with the first does not spare the second. */
  method CleanFiles(h: Host, q: Request, ghost w0: World, binary: OwnedFile, plist: OwnedFile)
    returns (plistDone: bool, binaryDone: bool)
    requires h.Valid() && binary != plist && Ours(h, binary, q.BinaryKey()) && Ours(h, plist, q.PlistKey())
    requires FdSet(binary) !! FdSet(plist) && h.mon.ordered && h.mon.stage <= 8 && q.Claimed(h)
    requires h.exclusive ==> Outside(w0, h.world, q) && FilesIn(w0, h.world, q, binary, plist)
    requires h.exclusive && h.sturdyLooks ==>
               (binary.created ==> binary.inode != 0) && (plist.created ==> plist.inode != 0)
    modifies binary, plist, h`world, h`rest, h`still, h`unsynced, h`log, h`mon
    ensures h.Valid() && h.mon.ordered && h.mon.stage <= 10
    ensures h.world.held == old(h.world.held) - old(FdSet(plist)) - old(FdSet(binary))
    ensures plistDone && binaryDone ==>
              h.unsynced.folders <= old(h.unsynced).folders - old(Dirs(plist)) - old(Dirs(binary))
    ensures h.mon == old(h.mon).(ordered := h.mon.ordered, stage := h.mon.stage)
    ensures plistDone && binaryDone ==>
              h.mon.stage == if old(binary.created) then 10 else if old(plist.created) then 9 else old(h.mon).stage
    ensures h.exclusive ==>
              && Outside(w0, h.world, q)
              && FilesOnly(old(h.world), h.world)
    ensures h.exclusive && plistDone && binaryDone ==>
              q.BinaryKey() !in h.world.entries && q.PlistKey() !in h.world.entries &&
              h.world.inodes.Keys == w0.inodes.Keys
    ensures binaryDone && old(binary.created) ==> q.BinaryKey() !in h.world.entries
    ensures h.exclusive && h.sturdyLooks ==> plistDone && binaryDone
  {
    hide Step, Watch, FIXED_LABEL, ValidName, Outside, WellFormed, Vanished, OwnedFile.InPlace, Host.Separate, Placed,
      BINARY_NAME, PLIST_NAME, FilesIn;
    NamesDiffer(q);
    if h.exclusive { FilesInParts(w0, h.world, q, binary, plist); }
    ghost var w1, p, bGone, pGone := h.world, plist.fd, false, false;
    plistDone, pGone := CleanFile(h, q, w0, plist, q.PlistKey());
    if h.exclusive && binary.created && binary.inode != 0 && p.Some? {
      StaysInPlace(w1, h.world, binary, q.PlistKey(), p.value, plistDone);
    }
    binaryDone, bGone := CleanFile(h, q, w0, binary, q.BinaryKey());
  }

  /** The first half of the cleanup: the job and both files. */
  method CleanJobAndFiles(h: Host, q: Request, ghost w0: World, ghost account: Account.OwnedAccount, binary: OwnedFile,
                          plist: OwnedFile,
                          job: Job.OwnedJob) returns (jobDone: bool, plistDone: bool, binaryDone: bool)
    requires Midway(h, q, w0, account, binary, plist, job)
    modifies binary, plist, job, h`world, h`rest, h`still, h`unsynced, h`log, h`mon
    ensures && h.Valid()
            && account.Valid(h)
            && account.prepared
            && account.identity == q.account
            && h.mon.ordered
            && h.mon.stage <= 10
    ensures && Account.ValidRecord(q.account)
            && Job.ValidRecord(q.job)
            && q.Claimed(h)
            && (h.mon.accountOpen <==> account.created)
    ensures h.exclusive && h.truthful && h.obligingDirectory ==> account.verified && h.Holds(q.account)
    ensures plistDone && binaryDone ==>
              h.unsynced.folders <= old(h.unsynced).folders - old(Dirs(plist)) - old(Dirs(binary))
    ensures h.mon == old(h.mon).(ordered := h.mon.ordered, stage := h.mon.stage, jobDeeds := h.mon.jobDeeds,
                     forgotten := h.mon.forgotten,
                     jobOpen := h.mon.jobOpen, stopFailed := h.mon.stopFailed)
    // the flag is true exactly when every bootstrap that may have had an effect was seen undone, and no stop failed
    ensures jobDone <==> !h.mon.jobOpen && !h.mon.stopFailed
    ensures h.world.held == old(h.world.held) - old(FdSet(plist)) - old(FdSet(binary))
    ensures h.exclusive ==> Outside(w0, h.world, q) && h.world.accounts == old(h.world).accounts
    ensures h.exclusive && plistDone && binaryDone ==>
              q.BinaryKey() !in h.world.entries && q.PlistKey() !in h.world.entries &&
              h.world.inodes.Keys == w0.inodes.Keys
    ensures h.exclusive && h.sturdyLooks ==> plistDone && binaryDone
    ensures h.exclusive && h.truthful && h.obligingLaunchd ==> jobDone && Job.Unloaded(h.world, q.job)
  {
    hide Account.ValidRecord, Job.ValidRecord, Step, Watch, WellFormed, Host.Separate, FIXED_LABEL, ValidName, Outside,
      FilesIn, JobSlotOnly;
    ghost var w1 := h.world;
    var j := job.Cleanup(h);
    jobDone := j == Ok || (j == NoEffect && !job.bootstrapAttempted);
    if h.exclusive {
      JobSlotOutside(w0, w1, h.world, q);
      AccountSlotSame(w0, ACCOUNT_NAME);
      FilesInSlots(w0, w0, w1, h.world, q, binary, plist);
    }
    plistDone, binaryDone := CleanFiles(h, q, w0, binary, plist);
  }

  /** Delete the account if this run created it. */
  method CleanAccount(h: Host, q: Request, account: Account.OwnedAccount) returns (done: bool)
    requires h.Valid() && account.Valid(h) && account.prepared && account.identity == q.account
    requires h.mon.accountOpen <==> account.created
    modifies account, h`world, h`rest, h`still, h`log, h`mon
    ensures h.Valid() && h.world.held == old(h.world.held)
    ensures h.mon == old(h.mon).(ordered := h.mon.ordered, stage := h.mon.stage, accountOpen := h.mon.accountOpen)
    ensures old(h.mon.ordered && h.mon.stage <= 10) ==> h.mon.ordered
    ensures done <==> !h.mon.accountOpen
    ensures !old(account.created) ==> done
    ensures h.exclusive ==> AccountSlotOnly(old(h.world), h.world, ACCOUNT_NAME)
    ensures h.exclusive && !old(account.created) ==> h.world == old(h.world)
    ensures h.exclusive && h.truthful && done && old(account.created) ==> ACCOUNT_NAME !in h.world.accounts
    ensures h.exclusive && h.truthful && h.obligingDirectory && old(account.verified) && old(h.Holds(q.account)) ==>
              ACCOUNT_NAME !in h.world.accounts
    ensures h.quiet && h.truthful && h.obligingDirectory && old(account.verified) && old(h.Holds(q.account)) &&
            Account.Unshared(old(h.world), old(h.rest), q.account) ==>
              done && Account.Free(h.world, h.rest, q.account)
  {
    hide Account.ValidRecord, Step, Watch, WellFormed, Host.Separate, AccountSlotOnly, Account.Free, Account.Unshared,
      AccountFree;
    AccountSlotSame(h.world, ACCOUNT_NAME);
    var d := account.Delete(h);
    done := d == Ok || (d == NoEffect && !account.created);
  }

  /** The second half: the account, and a last look at every name. */
  method CleanAccountAndLook(h: Host, q: Request, ghost w0: World, account: Account.OwnedAccount)
    returns (done: bool, absent: bool)
    requires h.Valid() && account.Valid(h) && account.prepared && account.identity == q.account && q.Claimed(h)
    requires Account.ValidRecord(q.account) && Job.ValidRecord(q.job) && (h.mon.accountOpen <==> account.created)
    requires h.mon.ordered && h.mon.stage <= 10
    requires h.exclusive ==> Outside(w0, h.world, q)
    requires h.exclusive && h.truthful && h.obligingDirectory ==> account.verified && h.Holds(q.account)
    modifies account, h`world, h`rest, h`still, h`log, h`mon
    ensures h.Valid() && h.world.held == old(h.world.held) && h.mon.ordered
    ensures h.mon == old(h.mon).(ordered := h.mon.ordered, stage := h.mon.stage, accountOpen := h.mon.accountOpen)
    ensures (done <==> !h.mon.accountOpen) && (!old(account.created) ==> done)
    ensures h.exclusive ==> Outside(w0, h.world, q) && h.world == old(h.world).(accounts := h.world.accounts)
    ensures h.exclusive && !old(account.created) ==> h.world == old(h.world)
    ensures h.exclusive && absent ==> q.BinaryKey() !in h.world.entries && q.PlistKey() !in h.world.entries
    ensures h.exclusive && h.truthful && absent ==> ACCOUNT_NAME !in h.world.accounts && Job.Unloaded(h.world, q.job)
    ensures h.exclusive && h.truthful && done && old(account.created) ==> ACCOUNT_NAME !in h.world.accounts
    ensures h.exclusive && h.truthful && h.obligingDirectory ==> ACCOUNT_NAME !in h.world.accounts
    ensures h.exclusive && Job.Unloaded(old(h.world), q.job) ==> Job.Unloaded(h.world, q.job)
    ensures h.quiet && h.truthful && h.sturdyLooks && h.obligingDirectory && h.obligingLaunchd &&
            Account.Free(w0, h.rest, q.account) && q.BinaryKey() !in h.world.entries &&
            q.PlistKey() !in h.world.entries && Job.Unloaded(old(h.world), q.job) ==>
              done && absent
  {
    hide Account.ValidRecord, Job.ValidRecord, Step, Watch, WellFormed, Host.Separate, FIXED_LABEL, ValidName, Outside,
      AccountSlotOnly, Account.Free, Account.Unshared, Job.Unloaded;
    Account.FixedName(q.account);
    Job.FixedNames(q.job);
    ghost var w3 := h.world;
    if h.quiet { StillUnshared(w0, w3, h.rest, q); }
    done := CleanAccount(h, q, account);
    if h.exclusive { AccountSlotOutside(w0, w3, h.world, q); }
    absent := FinalAbsence(h, q);
  }

  /** The cleanup: job, plist, binary, account, and a last look at every name, whatever failed before. */
  method CleanUp(h: Host, q: Request, ghost w0: World, account: Account.OwnedAccount, binary: OwnedFile,
                 plist: OwnedFile,
                 job: Job.OwnedJob, installed: Report) returns (report: Report)
    requires Midway(h, q, w0, account, binary, plist, job)
    modifies account, binary, plist, job, h`world, h`rest, h`still, h`unsynced, h`log, h`mon
    ensures h.Valid() && h.mon.ordered && h.mon.safe == old(h.mon.safe)
    ensures && h.mon.verifiedAccounts == old(h.mon).verifiedAccounts
            && h.mon.verifiedJobs == old(h.mon).verifiedJobs
            && h.mon.marks == old(h.mon).marks
            && h.mon.activated == old(h.mon).activated
            && h.mon.openFiles == old(h.mon).openFiles
    ensures report == Finished(installed, report.jobCleanup, report.plistCleanup, report.binaryCleanup,
                               report.accountCleanup, report.finalAbsence)
    ensures h.world.held == old(h.world.held) - old(FdSet(plist)) - old(FdSet(binary))
    ensures report.plistCleanup && report.binaryCleanup ==>
              h.unsynced.folders <= old(h.unsynced).folders - old(Dirs(plist)) - old(Dirs(binary))
    ensures h.exclusive ==> Outside(w0, h.world, q)
    ensures h.exclusive && report.plistCleanup && report.binaryCleanup ==> h.world.inodes.Keys == w0.inodes.Keys
    ensures h.exclusive && report.finalAbsence ==> q.BinaryKey() !in h.world.entries && q.PlistKey() !in h.world.entries
    ensures h.exclusive && h.truthful && report.finalAbsence ==>
              ACCOUNT_NAME !in h.world.accounts && Job.Unloaded(h.world, q.job)
    // what the flags for the two slots mean, on any host
    ensures report.jobCleanup <==> !h.mon.jobOpen && !h.mon.stopFailed
    ensures report.accountCleanup <==> !h.mon.accountOpen
    ensures h.exclusive && h.truthful && report.accountCleanup && old(account.created) ==>
              ACCOUNT_NAME !in h.world.accounts
    ensures h.exclusive && !old(account.created) ==> h.world.accounts == old(h.world).accounts && report.accountCleanup
    // no step of the cleanup depends on another one's success
    ensures h.exclusive && h.sturdyLooks ==>
              && report.plistCleanup
              && report.binaryCleanup
              && q.BinaryKey() !in h.world.entries
              && q.PlistKey() !in h.world.entries
    ensures h.exclusive && h.truthful && h.obligingDirectory ==> ACCOUNT_NAME !in h.world.accounts
    ensures h.exclusive && h.truthful && h.obligingLaunchd ==> report.jobCleanup && Job.Unloaded(h.world, q.job)
    ensures h.quiet && h.truthful && h.sturdyLooks && h.obligingDirectory && h.obligingLaunchd &&
            Account.Free(w0, h.rest, q.account) ==>
              report.cleanupComplete
  {
    hide Account.ValidRecord, Job.ValidRecord, Step, Watch, WellFormed, Host.Separate, FIXED_LABEL, ValidName, Outside,
      FilesIn, JobSlotOnly, AccountSlotOnly, Account.Free, Account.Unshared, Job.Unloaded, Job.Loaded, Midway,
      BINARY_NAME, PLIST_NAME, FdSet, UidTaken, GuidTaken, Finished;
    var jobDone, p, b := CleanJobAndFiles(h, q, w0, account, binary, plist, job);
    var accountDone, absent := CleanAccountAndLook(h, q, w0, account);
    report := Finished(installed, jobDone, p, b, accountDone, absent);
    FinishedMeans(installed, jobDone, p, b, accountDone, absent);
  }

  lemma FinishedMeans(installed: Report, job: bool, plist: bool, binary: bool, account: bool, absent: bool)
    ensures var r := Finished(installed, job, plist, binary, account, absent);
            && r.jobCleanup == job && r.plistCleanup == plist && r.binaryCleanup == binary
            && r.accountCleanup == account && r.finalAbsence == absent
            && r.cleanupComplete == (job && plist && binary && account && absent)
  {
  }

  /** A run's account stays the only one with its number and UUID. */
  lemma StillUnshared(w0: World, w: World, o: Rest, q: Request)
    requires Outside(w0, w, q)
    ensures Account.Free(w0, o, q.account) && q.account.name == ACCOUNT_NAME ==> Account.Unshared(w, o, q.account)
  {
    SameElsewhere(w.accounts, w0.accounts, ACCOUNT_NAME);
  }

  lemma AccountSlotOutside(w0: World, w: World, v: World, q: Request)
    requires Outside(w0, w, q) && AccountSlotOnly(w, v, ACCOUNT_NAME)
    ensures Outside(w0, v, q) && v == w.(accounts := v.accounts) && (Job.Unloaded(w, q.job) ==> Job.Unloaded(v, q.job))
  {
  }

  /** With every slot free before and after, the run left nothing behind. */
  lemma NothingLeft(w0: World, w: World, q: Request)
    requires Outside(w0, w, q) && w.inodes.Keys == w0.inodes.Keys && w.held == w0.held
    requires forall x <- [w0, w] :: && q.BinaryKey() !in x.entries && q.PlistKey() !in x.entries
                                    && ACCOUNT_NAME !in x.accounts && Job.Unloaded(x, q.job)
    ensures w == w0
  {
    hide FIXED_LABEL;
    assert w0 in [w0, w] && w in [w0, w];
    assert forall x <- [w0, w] :: x.accounts - {ACCOUNT_NAME} == x.accounts && x.jobs - {q.job.jobLabel} == x.jobs
                                  && x.machs - {q.job.machService} == x.machs
                                  && x.entries - {q.BinaryKey(), q.PlistKey()} == x.entries;
    assert w.inodes == w0.inodes;
  }

  /** With both files' names free before and after, and their inodes gone, the files are as they were. */
  lemma NoFileLeft(w0: World, w: World, q: Request)
    requires Outside(w0, w, q) && w.inodes.Keys == w0.inodes.Keys
    requires forall x <- [w0, w] :: q.BinaryKey() !in x.entries && q.PlistKey() !in x.entries
    ensures w.entries == w0.entries && w.inodes == w0.inodes
  {
    hide FIXED_LABEL;
    assert w0 in [w0, w] && w in [w0, w];
    assert forall x <- [w0, w] :: x.entries - {q.BinaryKey(), q.PlistKey()} == x.entries;
  }

  /** What a report promises about the slots at the end, on a host where nobody else writes them. */
  ghost predicate Kept(w0: World, w: World, truthful: bool, q: Request, report: Report) {
    && Outside(w0, w, q) && w.held == w0.held
    // nothing is left unless the report calls for a manual recovery
    && (truthful && !report.manualRecovery ==> w == w0)
    && (!report.manualRecovery ==> w.entries == w0.entries && w.inodes == w0.inodes)
    // and slot by slot
    && (report.plistCleanup && report.binaryCleanup ==> w.inodes == w0.inodes)
    && (report.finalAbsence ==> q.BinaryKey() !in w.entries && q.PlistKey() !in w.entries)
    && (truthful && report.finalAbsence ==> ACCOUNT_NAME !in w.accounts && Job.Unloaded(w, q.job))
    && (truthful && report.accountCleanup && report.accountCreated ==> ACCOUNT_NAME !in w.accounts)
  }

  lemma KeptBy(w0: World, w: World, truthful: bool, q: Request, report: Report)
    requires Outside(w0, w, q) && w.held == w0.held && q.BinaryKey() !in w0.entries && q.PlistKey() !in w0.entries
    requires truthful ==> ACCOUNT_NAME !in w0.accounts && Job.Unloaded(w0, q.job)
    requires report.plistCleanup && report.binaryCleanup ==> w.inodes.Keys == w0.inodes.Keys
    requires report.finalAbsence ==> q.BinaryKey() !in w.entries && q.PlistKey() !in w.entries
    requires truthful && report.finalAbsence ==> ACCOUNT_NAME !in w.accounts && Job.Unloaded(w, q.job)
    requires truthful && report.accountCleanup && report.accountCreated ==> ACCOUNT_NAME !in w.accounts
    requires !report.manualRecovery ==> report.plistCleanup && report.binaryCleanup && report.finalAbsence
    ensures Kept(w0, w, truthful, q, report)
  {
    hide FIXED_LABEL, Job.Unloaded;
    if !report.manualRecovery {
      NoFileLeft(w0, w, q);
      if truthful { NothingLeft(w0, w, q); }
    }
  }

  /** The mutating part of a run, after the preflight. */
  method RunChecked(h: Host, q: Request, account: Account.OwnedAccount, job: Job.OwnedJob) returns (report: Report)
    requires && h.Valid()
             && account.Valid(h)
             && job.Valid(h)
             && q.Consistent()
             && q.Claimed(h)
             && h.mon.ordered
             && h.mon.stage == 0
    requires !h.mon.accountOpen && !h.mon.jobOpen && !h.mon.stopFailed && Remembers(h.mon, q, BLANK_REPORT)
    requires account.prepared && account.identity == q.account && !account.created
    requires job.prepared && job.identity == q.job && !job.bootstrapAttempted && !job.denialVerified
    requires h.exclusive ==> q.BinaryKey() !in h.world.entries && q.PlistKey() !in h.world.entries
    requires h.exclusive && h.truthful ==> ACCOUNT_NAME !in h.world.accounts && Job.Unloaded(h.world, q.job)
    requires h.quiet && h.truthful ==> Account.Free(h.world, h.rest, q.account)
    modifies account, job, h`world, h`rest, h`still, h`unsynced, h`interrupts, h`log, h`mon
    ensures h.Valid() && Chain(report) && h.mon.ordered && h.mon.safe == old(h.mon.safe)
    ensures report.preflightComplete && report.cleanupAttempted && report.manualRecovery == !report.cleanupComplete
    ensures report.cleanupComplete <==>
            report.jobCleanup && report.plistCleanup && report.binaryCleanup && report.accountCleanup &&
            report.finalAbsence
    ensures report.jobCleanup <==> !h.mon.jobOpen && !h.mon.stopFailed
    ensures report.accountCleanup <==> !h.mon.accountOpen
    ensures Remembers(h.mon, q, report) && Traced(h.mon, q, report)
    ensures report.plistCleanup && report.binaryCleanup ==> h.unsynced.folders <= old(h.unsynced).folders
    ensures h.world.held == old(h.world.held)
    ensures h.exclusive ==> Kept(old(h.world), h.world, h.truthful, q, report)
    // a create that takes effect and answers "ambiguous" leaves its record, with the account's flag set
    ensures h.exclusive && h.truthful && h.balkingDirectory ==>
              h.Holds(q.account) && report.accountCleanup && report.manualRecovery
    // however far the publications got
    ensures h.exclusive && h.sturdyLooks ==>
              && report.plistCleanup && report.binaryCleanup
              && q.BinaryKey() !in h.world.entries && q.PlistKey() !in h.world.entries
    ensures h.quiet && h.truthful && h.sturdyLooks && h.obligingDirectory && h.obligingLaunchd ==>
              report.cleanupComplete
    ensures h.exclusive && h.truthful && h.obligingDirectory ==> ACCOUNT_NAME !in h.world.accounts
    ensures h.exclusive && h.truthful && h.obligingLaunchd ==> Job.Unloaded(h.world, q.job)
    ensures h.quiet && h.truthful && h.sturdyFiles && h.obligingDirectory && h.obligingLaunchd &&
            FilesReady(h.directories, old(h.world), q) ==>
              report.mutationComplete && report.cleanupComplete
  {
    hide Account.ValidRecord, Job.ValidRecord, Step, Watch, WellFormed, Host.Separate, FIXED_LABEL, ValidName, Outside,
      FilesIn, Job.Unloaded, Account.Free, FilesReady, UidTaken, GuidTaken, Remembers, Traced, Kept;
    ghost var w0 := h.world;
    var binary := new OwnedFile();
    var plist := new OwnedFile();
    report := Install(h, q, account, binary, plist, job);
    ghost var m, installed := h.mon, report;
    report := CleanUp(h, q, w0, account, binary, plist, job, report);
    RemembersSame(m, h.mon, q, installed, report);
    if h.exclusive { KeptBy(w0, h.world, h.truthful, q, report); }
  }

  /** One whole run of the lifecycle. */
  method RunLifecycle(h: Host, q: Request) returns (report: Report)
    requires h.Valid() && q.Claimed(h)
    modifies h`world, h`rest, h`still, h`unsynced, h`interrupts, h`log, h`mon
    ensures h.Valid()
    // the report: an implication chain, a cleanup exactly when the preflight passed, and no silent leftovers
    ensures Chain(report) && report.cleanupAttempted == report.preflightComplete
    ensures report.manualRecovery == (report.cleanupAttempted && !report.cleanupComplete)
    ensures !report.preflightComplete ==> report == BLANK_REPORT
    ensures report.preflightComplete ==>
              q.Consistent() && q.binaryParent in h.directories && q.plistParent in h.directories
    ensures report.preflightComplete ==>
              q.job.binarySha256 == q.sha256Hex(q.binaryBytes) && q.job.plistSha256 == q.sha256Hex(q.plistBytes)
    ensures report.cleanupComplete <==>
            report.jobCleanup && report.plistCleanup && report.binaryCleanup && report.accountCleanup &&
            report.finalAbsence
    // what this run did
    ensures Happened(h.log, q, report) && Traced(h.mon, q, report)
    // every bootstrap that may have had an effect, and every create that answered OK, was seen undone
    ensures report.preflightComplete ==> (report.jobCleanup <==> !h.mon.jobOpen && !h.mon.stopFailed)
    ensures report.preflightComplete ==> (report.accountCleanup <==> !h.mon.accountOpen)
    // every call licensed, every deed in its place, and none before the preflight passed
    ensures Safe(old(h.log)) ==> Safe(h.log)
    ensures InOrder(Deeds(h.log))
    ensures !report.preflightComplete ==> Deeds(h.log) == []
    // conservation, while others leave the claimed slots alone
    ensures h.world.held == old(h.world.held)
    ensures h.exclusive ==> Kept(old(h.world), h.world, h.truthful, q, report)
    ensures h.exclusive && !report.preflightComplete ==> h.world == old(h.world)
    // what was cleaned up is gone from the disk, too
    ensures report.plistCleanup && report.binaryCleanup ==> h.unsynced.folders <= old(h.unsynced).folders
    ensures !report.preflightComplete ==> h.unsynced == old(h.unsynced)
    // each part is cleaned up whatever becomes of the others, and however far the publications got
    ensures h.exclusive && h.sturdyLooks && report.preflightComplete ==>
              && report.plistCleanup && report.binaryCleanup
              && q.BinaryKey() !in h.world.entries && q.PlistKey() !in h.world.entries
    ensures h.exclusive && h.truthful && h.obligingDirectory && report.preflightComplete ==>
              ACCOUNT_NAME !in h.world.accounts
    ensures h.exclusive && h.truthful && h.obligingLaunchd && report.preflightComplete ==> Job.Unloaded(h.world, q.job)
    ensures h.quiet && h.truthful && h.sturdyLooks && h.obligingDirectory && h.obligingLaunchd ==>
              !report.manualRecovery
    // and an undisturbed run completes
    ensures h.quiet && h.truthful && h.sturdyFiles && h.obligingDirectory && h.obligingLaunchd && q.Consistent() &&
            Ready(old(h.world), old(h.rest), q) && Account.ValidRecord(q.account) && Job.ValidRecord(q.job) ==>
              report.mutationComplete && report.cleanupComplete && !report.manualRecovery
  {
    hide Account.ValidRecord, Job.ValidRecord, Step, Watch, WellFormed, Host.Separate, FIXED_LABEL, ValidName, Outside,
      Account.Free, Job.Unloaded, Safe, InOrder, Deeds, Kept, Remembers, Traced, Happened;
    report := BLANK_REPORT;
    ghost var w0 := h.world;
    WatchSafe(h.log);
    StepRunStarted(h.mon, h.log);
    h.Note(RunStarted);
    var account := new Account.OwnedAccount();
    var job := new Job.OwnedJob();
    var ok := ValidRequest(h, q);
    if ok { ok := Preflight(h, q, account, job); }
    KeptSame(w0, h.truthful, q);
    NothingRemembered(h.mon, q);
    if ok { report := RunChecked(h, q, account, job); }
    WatchSafe(h.log);
    WatchOrdered(h.log);
    RememberedHappened(h.log, q, report);
  }

  lemma NothingRemembered(m: Monitor, q: Request)
    requires m.verifiedAccounts == {} && m.verifiedJobs == {} && m.marks == {}
    ensures Remembers(m, q, BLANK_REPORT) && Traced(m, q, BLANK_REPORT)
  {
  }

  lemma KeptSame(w: World, truthful: bool, q: Request)
    ensures Kept(w, w, truthful, q, BLANK_REPORT)
  {
    OutsideSame(w, q);
  }

  lemma OutsideSame(w: World, q: Request)
    ensures Outside(w, w, q)
  {
  }
}
