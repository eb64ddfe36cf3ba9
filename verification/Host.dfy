/**
 The machine the lifecycle runs on, with the untrusted callbacks and system calls that act on it.

 `world` holds the slots this process may write: the fixed account, the fixed job and Mach name, the claimed directory
 entries, and the inodes behind them; `rest` is everything else. Before every call some other writer may act, and every
 call may answer anything. Constants name the regimes in which parts of that freedom are taken away. The calls accept
 nothing but claimed names, so whoever calls them shows that nothing else is ever touched. A ghost log records each
 call.
 */
module HostModel {
  import opened Basics
  import opened Records
  import opened Discipline

  class Host {
    /** Nobody else writes the claimed slots or the inodes behind them; all else may change at any time. */
    const exclusive: bool
    /** Nobody else writes at all: `rest` stays what it was. */
    const quiet: bool
    const firstRest: Rest
    /** Probes and reads may fail but never lie. */
    const truthful: bool
    /** What it takes to remove a file never fails: looking at files and folders, unlinking, syncing a folder. */
    const sturdyLooks: bool
    /** No file system call fails: creating, writing, reading, owner, mode and syncing a file neither. */
    const sturdyFiles: bool
    /** Directory callbacks succeed and do all they are asked. */
    const obligingDirectory: bool
    /** The directory does every create it is asked for, and answers "ambiguous". */
    const balkingDirectory: bool

    /** The directory entries this process may write. */
    const keys: set<Key>
    /** Descriptors that denote directories: the type of an inode never changes. */
    const directories: set<nat>

    /** launchd callbacks succeed and do all they are asked. */
    var obligingLaunchd: bool
    /** launchd answers every bootstrap with "ambiguous". */
    var balkingLaunchd: bool

    var world: World
    var rest: Rest
    /** How many more system calls may be interrupted; any number, but a finite one. */
    var interrupts: nat
    /** Nobody else has changed a loaded job since this process last read one. */
    var still: bool
    ghost var unsynced: Unsynced
    ghost var log: Log
    ghost var mon: Monitor

    constructor (exclusive: bool, quiet: bool, truthful: bool, sturdyLooks: bool, sturdyFiles: bool,
                 obligingDirectory: bool, balkingDirectory: bool, obligingLaunchd: bool, balkingLaunchd: bool,
                 keys: set<Key>, directories: set<nat>, world: World, rest: Rest, interrupts: nat)
      requires WellFormed(world) && Separate(world, rest, directories)
      requires (quiet ==> exclusive) && (sturdyFiles ==> sturdyLooks)
      requires !(obligingDirectory && balkingDirectory) && !(obligingLaunchd && balkingLaunchd)
      ensures Valid() && this.world == world && this.rest == rest && log == Start && still
      ensures this.exclusive == exclusive && this.quiet == quiet && this.truthful == truthful
      ensures this.sturdyLooks == sturdyLooks && this.sturdyFiles == sturdyFiles
      ensures this.obligingDirectory == obligingDirectory && this.balkingDirectory == balkingDirectory
      ensures this.obligingLaunchd == obligingLaunchd && this.balkingLaunchd == balkingLaunchd
      ensures this.keys == keys && this.directories == directories && unsynced == Unsynced({}, {})
    {
      this.exclusive, this.quiet, this.truthful := exclusive, quiet, truthful;
      this.sturdyLooks, this.sturdyFiles := sturdyLooks, sturdyFiles;
      this.obligingDirectory, this.obligingLaunchd := obligingDirectory, obligingLaunchd;
      this.balkingDirectory, this.balkingLaunchd := balkingDirectory, balkingLaunchd;
      this.keys, this.directories := keys, directories;
      this.world, this.rest, this.firstRest := world, rest, rest;
      this.interrupts, this.still, this.log, this.mon := interrupts, true, Start, FRESH;
      this.unsynced := Unsynced({}, {});
    }

    /** Other inodes have other numbers, and what is a directory stays one. */
    static ghost predicate Separate(w: World, o: Rest, directories: set<nat>) {
      && w.inodes.Keys !! o.inodes
      && directories <= o.folders.Keys && forall d <- o.folders :: o.folders[d].isDirectory <==> d in directories
    }

    ghost predicate Valid() reads this {
      && WellFormed(world) && Separate(world, rest, directories) && mon == Watch(log)
      && (quiet ==> exclusive && rest == firstRest) && (exclusive ==> still) && (sturdyFiles ==> sturdyLooks)
      && !(obligingDirectory && balkingDirectory) && !(obligingLaunchd && balkingLaunchd)
    }

    /** A call that only looks: no held descriptor changes, and no claimed slot while nobody else writes them. */
    twostate predicate Looked() reads this {
      && Valid() && world.held == old(world.held) && (exclusive ==> world == old(world))
      && (still ==> old(still) && world.jobs == old(world).jobs)
    }

    /** A look that may start a new reading of the loaded job. */
    twostate predicate Glanced() reads this {
      Valid() && world.held == old(world.held) && (exclusive ==> world == old(world))
    }

    twostate predicate Logged(e: Event) reads this {
      log == Then(old(log), e) && mon == Step(old(mon), old(log), e)
    }

    /** One more look in the log; nothing the monitor keeps track of. */
    twostate predicate Saw(e: Event) reads this { Looked() && log == Then(old(log), e) && mon == old(mon) }

    ghost method Note(e: Event)
      requires Valid()
      modifies this`log, this`mon
      ensures Valid() && Logged(e)
    {
      log, mon := Then(log, e), Step(mon, log, e);
    }

    /** Some other writer's turn. Open descriptors keep their inodes alive; all else may change. */
    method Interfere()
      requires Valid()
      modifies this`world, this`rest, this`still
      ensures Looked()
      ensures still == (old(still) && world.jobs == old(world).jobs)
    {
      hide Step, Watch;
      if !exclusive { InterfereHere(); }
      if !quiet { InterfereElsewhere(); }
    }

    method InterfereHere()
      requires Valid() && !exclusive
      modifies this`world, this`rest, this`still
      ensures Looked() && still == (old(still) && world.jobs == old(world).jobs)
    {
      hide Step, Watch;
      var jobs := world.jobs;
      var any: World := *;
      var kept := map i | i in world.held && i !in any.inodes :: world.inodes[i];
      var inodes := (map i | i in any.inodes && i != 0 :: any.inodes[i]) + kept;
      var entries := map k | k in any.entries && any.entries[k] in inodes :: any.entries[k];
      world := any.(inodes := inodes, entries := entries, held := world.held);
      rest := rest.(inodes := rest.inodes - world.inodes.Keys);
      still := still && world.jobs == jobs;
    }

    method InterfereElsewhere()
      requires Valid() && !quiet
      modifies this`rest
      ensures Valid()
    {
      hide Step, Watch, WellFormed;
      var any: Rest := *;
      var folders := (map d | d in directories :: rest.folders[d]) + any.folders;
      folders := map d | d in folders :: folders[d].(isDirectory := d in directories);
      rest := any.(folders := folders, inodes := any.inodes - world.inodes.Keys);
    }

    /** An untrusted yes/no/error answer about `truth`. */
    method AnswerProbe(ghost truth: bool, sure: bool, fact: bool) returns (p: Probe)
      requires truthful ==> fact == truth
      ensures truthful && p == Absent ==> !truth
      ensures truthful && p == Present ==> truth
      ensures truthful && sure ==> p != ProbeError
    {
      if truthful {
        var fails: bool := *;
        p := if fails && !sure then ProbeError else if fact then Present else Absent;
      } else {
        p := *;
      }
    }

    // ---- directory callbacks: what their callers rely on ----

    /** A truthful probe does not lie about `fact`; an obliging one does not fail. */
    ghost predicate Answers(p: Probe, fact: bool, obliging: bool) reads this {
      && (truthful && p == Absent ==> !fact) && (truthful && p == Present ==> fact)
      && (truthful && obliging ==> p != ProbeError)
    }

    ghost predicate NameAnswer(p: Probe) reads this { Answers(p, ACCOUNT_NAME in world.accounts, obligingDirectory) }

    ghost predicate UidAnswer(uid: nat,
                              p: Probe) reads this { Answers(p, UidTaken(world, rest, uid), obligingDirectory) }

    ghost predicate GuidAnswer(guid: string, p: Probe) reads this {
      Answers(p, GuidTaken(world, rest, guid), obligingDirectory)
    }

    function AccountSlot(): Option<Account> reads this {
      if ACCOUNT_NAME in world.accounts then Some(world.accounts[ACCOUNT_NAME]) else None
    }

    ghost predicate Holds(r: AccountRecord) reads this { AccountSlot() == Some(Complete(r)) }

    /** A truthful read finds what is there; an obliging one finds every record that `readable` admits. */
    ghost predicate RecordAnswer(r: Option<AccountRecord>, readable: AccountRecord -> bool) reads this {
      && (truthful && r.Some? ==> Holds(r.value) && r.value.name == ACCOUNT_NAME)
      && (truthful && obligingDirectory && r.None? ==>
            forall x: AccountRecord :: !(x.name == ACCOUNT_NAME && readable(x) && Holds(x)))
    }

    /** Only the account's slot differs. */
    twostate predicate AccountDeed() reads this {
      && Valid() && world.held == old(world.held)
      && (exclusive ==> AccountSlotOnly(old(world), world, ACCOUNT_NAME))
      && (still ==> old(still) && world.jobs == old(world).jobs)
    }

    twostate predicate CreateAnswer(r: AccountRecord, a: Answer) reads this {
      AccountDeed() && (obligingDirectory ==> a == Ok && Holds(r)) && (balkingDirectory ==> a == Ambiguous && Holds(r))
    }

    /**
     `hit` is what the deletion found in the slot; it is what was there before the call unless somebody came between.
     */
    twostate predicate DeleteAnswer(r: AccountRecord, a: Answer, new hit: Option<Account>, sure: bool) reads this {
      && AccountDeed() && (sure ==> truthful && (hit.Some? ==> hit == old(AccountSlot())))
      && (exclusive && truthful ==> sure)
      && (truthful && obligingDirectory && exclusive && old(Holds(r)) ==>
            a == Ok && world == old(world).(accounts := old(world).accounts - {ACCOUNT_NAME}))
    }

    // ---- directory callbacks ----

    method ProbeName(name: string) returns (p: Probe)
      requires Valid() && name == ACCOUNT_NAME
      modifies this`world, this`rest, this`still, this`log, this`mon
      ensures Saw(NameProbe(name, p)) && NameAnswer(p)
    {
      Interfere();
      p := AnswerProbe(ACCOUNT_NAME in world.accounts, obligingDirectory, ACCOUNT_NAME in world.accounts);
      Look(NameProbe(name, p));
    }

    ghost method Look(e: Event)
      requires Valid() && Discipline.Look(e)
      modifies this`log, this`mon
      ensures Valid() && log == Then(old(log), e) && mon == old(mon)
    {
      hide Step, Watch, WellFormed;
      StepLook(mon, log, e);
      Note(e);
    }

    method ProbeUniqueId(uid: nat) returns (p: Probe)
      requires Valid()
      modifies this`world, this`rest, this`still, this`log, this`mon
      ensures Saw(UidProbe(uid, p)) && UidAnswer(uid, p)
    {
      Interfere();
      p := AnswerProbe(UidTaken(world, rest, uid), obligingDirectory, UidTaken(world, rest, uid));
      Look(UidProbe(uid, p));
    }

    method ProbeGeneratedUid(guid: string) returns (p: Probe)
      requires Valid()
      modifies this`world, this`rest, this`still, this`log, this`mon
      ensures Saw(GuidProbe(guid, p)) && GuidAnswer(guid, p)
    {
      Interfere();
      p := AnswerProbe(GuidTaken(world, rest, guid), obligingDirectory, GuidTaken(world, rest, guid));
      Look(GuidProbe(guid, p));
    }

    /** Any effect on the account's slot. */
    method DisturbAccount()
      requires Valid()
      modifies this`world
      ensures Valid() && AccountSlotOnly(old(world), world, ACCOUNT_NAME)
    {
      hide Step, Watch;
      var left: Option<Account> := *;
      world := world.(accounts := if left.Some? then world.accounts[ACCOUNT_NAME := left.value]
      else world.accounts - {ACCOUNT_NAME});
    }

    /** Create may do anything to its slot and answer anything. */
    method CreateRecord(r: AccountRecord) returns (a: Answer)
      requires Valid() && r.name == ACCOUNT_NAME
      modifies this`world, this`rest, this`still, this`log, this`mon
      ensures CreateAnswer(r, a) && Logged(CreateAccount(r, a))
    {
      hide Step, Watch;
      Interfere();
      if obligingDirectory || balkingDirectory {
        a := if obligingDirectory then Ok else Ambiguous;
        world := world.(accounts := world.accounts[ACCOUNT_NAME := Complete(r)]);
      } else {
        a := *;
        DisturbAccount();
      }
      Note(CreateAccount(r, a));
    }

    method ReadRecord(name: string) returns (r: Option<AccountRecord>)
      requires Valid() && name == ACCOUNT_NAME
      modifies this`world, this`rest, this`still, this`log, this`mon
      ensures Saw(ReadAccount(name, r)) && RecordAnswer(r, _ => true)
    {
      hide Step, Watch;
      Interfere();
      if truthful {
        var fails: bool := *;
        r := None;
        if (obligingDirectory || !fails) && ACCOUNT_NAME in world.accounts {
          match world.accounts[ACCOUNT_NAME] {
            case Account(Some(u), Some(g), Some(s), Some(d)) => r := Some(AccountRecord(name, u, g, s, d));
            case _ =>
          }
        }
      } else {
        r := *;
      }
      Look(ReadAccount(name, r));
    }

    /**
     Delete may answer anything and acts on whatever the slot then holds, be it the given record or not. Somebody
     else may have come between the caller's last read and this call; `sure` says that nobody did and that reads
     do not lie.
     */
    method DeleteRecord(r: AccountRecord) returns (a: Answer, ghost hit: Option<Account>, ghost sure: bool)
      requires Valid() && r.name == ACCOUNT_NAME
      modifies this`world, this`rest, this`still, this`log, this`mon
      ensures DeleteAnswer(r, a, hit, sure) && Logged(DeleteAccount(r, a, hit, sure))
    {
      hide Step, Watch;
      Interfere();
      hit := AccountSlot();
      sure := truthful && hit == old(AccountSlot());
      if obligingDirectory {
        a := Ok;
        world := world.(accounts := world.accounts - {ACCOUNT_NAME});
      } else {
        a := *;
        DisturbAccount();
      }
      Note(DeleteAccount(r, a, hit, sure));
    }

    // ---- launchd callbacks: what their callers rely on ----

    ghost predicate LabelAnswer(p: Probe) reads this {
      Answers(p, FIXED_LABEL in world.jobs, obligingLaunchd || balkingLaunchd)
    }

    ghost predicate MachAnswer(p: Probe) reads this {
      Answers(p, FIXED_LABEL in world.machs, obligingLaunchd || balkingLaunchd)
    }

    function JobSlot(): Option<Job> reads this {
      if FIXED_LABEL in world.jobs then Some(world.jobs[FIXED_LABEL]) else None
    }

    /** Only the job's slot and its Mach name differ. */
    twostate predicate JobDeed(j: JobRecord) reads this {
      && Valid() && world.held == old(world.held) && (exclusive ==> JobSlotOnly(old(world), world, j))
    }

    /**
     `hit` is what a stop or bootout found loaded; it is what was loaded before the call unless somebody came between.
     */
    twostate predicate JobHit(new hit: Option<Job>, sure: bool) reads this {
      (sure ==> truthful && old(still) && (hit.Some? ==> hit == old(JobSlot()))) && (exclusive && truthful ==> sure)
    }

    // ---- launchd callbacks ----

    method ProbeLabel(jobLabel: string) returns (p: Probe)
      requires Valid() && jobLabel == FIXED_LABEL
      modifies this`world, this`rest, this`still, this`log, this`mon
      ensures Saw(LabelProbe(jobLabel, p)) && LabelAnswer(p)
    {
      hide Step, Watch, FIXED_LABEL;
      Interfere();
      p := AnswerProbe(FIXED_LABEL in world.jobs, obligingLaunchd || balkingLaunchd, FIXED_LABEL in world.jobs);
      Look(LabelProbe(jobLabel, p));
    }

    method ProbeMachService(mach: string) returns (p: Probe)
      requires Valid() && mach == FIXED_LABEL
      modifies this`world, this`rest, this`still, this`log, this`mon
      ensures Saw(MachProbe(mach, p)) && MachAnswer(p)
    {
      hide Step, Watch, FIXED_LABEL;
      Interfere();
      p := AnswerProbe(FIXED_LABEL in world.machs, obligingLaunchd || balkingLaunchd, FIXED_LABEL in world.machs);
      Look(MachProbe(mach, p));
    }

    /** Any effect on the job's slot and its Mach name. */
    method DisturbJob(j: JobRecord)
      requires Valid()
      modifies this`world
      ensures Valid() && JobSlotOnly(old(world), world, j)
    {
      hide Step, Watch;
      var left: Option<Job> := *;
      var named: bool := *;
      world := world.(
      jobs := if left.Some? then world.jobs[j.jobLabel := left.value] else world.jobs - {j.jobLabel},
      machs := if named then world.machs + {j.machService} else world.machs - {j.machService});
    }

    method BootstrapJob(j: JobRecord) returns (a: Answer)
      requires Valid() && j.jobLabel == FIXED_LABEL && j.machService == FIXED_LABEL
      modifies this`world, this`rest, this`still, this`log, this`mon
      ensures JobDeed(j) && Logged(Bootstrap(j, a))
      ensures obligingLaunchd ==> a == Ok && JobSlot() == Some(Job(j, false)) && FIXED_LABEL in world.machs
      ensures balkingLaunchd ==> a == Ambiguous
    {
      hide Step, Watch, FIXED_LABEL;
      Interfere();
      if obligingLaunchd {
        a := Ok;
        world := world.(jobs := world.jobs[j.jobLabel := Job(j, false)], machs := world.machs + {j.machService});
      } else {
        a := *;
        if balkingLaunchd { a := Ambiguous; }
        DisturbJob(j);
      }
      Note(Bootstrap(j, a));
    }

    /** What is loaded is read afresh, as far as launchd shows it: from here on `still` speaks of this reading. */
    method ReadLoadedJob(jobLabel: string) returns (r: Option<JobRecord>)
      requires Valid() && jobLabel == FIXED_LABEL
      modifies this`world, this`rest, this`still, this`log, this`mon
      ensures Glanced() && still
      ensures log == Then(old(log), ReadJob(jobLabel, r)) && mon == old(mon)
      ensures truthful && r.Some? ==> JobSlot().Some? && Alike(JobSlot().value.record, r.value)
      ensures truthful && obligingLaunchd && JobSlot().Some? ==> r == Some(JobSlot().value.record)
    {
      hide Step, Watch, FIXED_LABEL;
      Interfere();
      still := true;
      if truthful {
        r := *;
        if obligingLaunchd { r := if JobSlot().Some? then Some(JobSlot().value.record) else None; }
        if r.Some? && !(JobSlot().Some? && Alike(JobSlot().value.record, r.value)) { r := None; }
      } else {
        r := *;
      }
      Look(ReadJob(jobLabel, r));
    }

    method ActivateJob(j: JobRecord) returns (a: Answer)
      requires Valid() && j.jobLabel == FIXED_LABEL && j.machService == FIXED_LABEL
      modifies this`world, this`rest, this`still, this`log, this`mon
      ensures JobDeed(j) && Logged(Activate(j, a))
      ensures obligingLaunchd && exclusive && old(JobSlot()).Some? && old(JobSlot()).value.record == j ==>
                a == Ok && world == old(world).(jobs := old(world).jobs[j.jobLabel := Job(j, true)])
    {
      hide Step, Watch, FIXED_LABEL;
      Interfere();
      if obligingLaunchd && JobSlot().Some? && JobSlot().value.record == j {
        a := Ok;
        world := world.(jobs := world.jobs[j.jobLabel := Job(j, true)]);
      } else {
        a := *;
        DisturbJob(j);
      }
      Note(Activate(j, a));
    }

    method CheckProcess(j: JobRecord) returns (ok: bool)
      requires Valid() && j.jobLabel == FIXED_LABEL
      modifies this`world, this`rest, this`still, this`log, this`mon
      ensures Saw(VerifyProcess(j, ok))
      ensures obligingLaunchd && JobSlot() == Some(Job(j, true)) ==> ok
    {
      hide Step, Watch, FIXED_LABEL;
      Interfere();
      ok := *;
      if obligingLaunchd { ok := JobSlot() == Some(Job(j, true)); }
      Look(VerifyProcess(j, ok));
    }

    method TryDenial(j: JobRecord) returns (ok: bool)
      requires Valid() && j.jobLabel == FIXED_LABEL
      modifies this`world, this`rest, this`still, this`log, this`mon
      ensures Looked() && Logged(ExerciseDenial(j, ok))
      ensures obligingLaunchd && JobSlot() == Some(Job(j, true)) ==> ok
    {
      hide Step, Watch, FIXED_LABEL;
      Interfere();
      ok := *;
      if obligingLaunchd { ok := JobSlot() == Some(Job(j, true)); }
      Note(ExerciseDenial(j, ok));
    }

    /** Stop and bootout act on whatever is loaded under the label by then. */
    method StopJob(j: JobRecord) returns (a: Answer, ghost hit: Option<Job>, ghost sure: bool)
      requires Valid() && j.jobLabel == FIXED_LABEL && j.machService == FIXED_LABEL
      modifies this`world, this`rest, this`still, this`log, this`mon
      ensures JobDeed(j) && JobHit(hit, sure) && Logged(StopProcess(j, a, hit, sure))
      ensures obligingLaunchd && exclusive && old(JobSlot()).Some? && old(JobSlot()).value.record == j ==>
                a == Ok && world == old(world).(jobs := old(world).jobs[j.jobLabel := Job(j, false)])
    {
      hide Step, Watch, FIXED_LABEL;
      Interfere();
      hit, sure := JobSlot(), truthful && still;
      if obligingLaunchd && JobSlot().Some? && JobSlot().value.record == j {
        a := Ok;
        world := world.(jobs := world.jobs[j.jobLabel := Job(j, false)]);
      } else {
        a := *;
        DisturbJob(j);
      }
      Note(StopProcess(j, a, hit, sure));
    }

    method BootoutJob(j: JobRecord) returns (a: Answer, ghost hit: Option<Job>, ghost sure: bool)
      requires Valid() && j.jobLabel == FIXED_LABEL && j.machService == FIXED_LABEL
      modifies this`world, this`rest, this`still, this`log, this`mon
      ensures JobDeed(j) && JobHit(hit, sure) && Logged(Bootout(j, a, hit, sure))
      ensures obligingLaunchd && exclusive && old(JobSlot()).Some? && old(JobSlot()).value.record == j ==>
                && a == Ok
                && world == old(world).(jobs := old(world).jobs - {j.jobLabel},
                            machs := old(world).machs - {j.machService})
    {
      hide Step, Watch, FIXED_LABEL;
      Interfere();
      hit, sure := JobSlot(), truthful && still;
      if obligingLaunchd && JobSlot().Some? && JobSlot().value.record == j {
        a := Ok;
        world := world.(jobs := world.jobs - {j.jobLabel}, machs := world.machs - {j.machService});
      } else {
        a := *;
        DisturbJob(j);
      }
      Note(Bootout(j, a, hit, sure));
    }

    /** launchd stops balking and does as it is told. */
    method ComeRound()
      requires Valid()
      modifies this`obligingLaunchd, this`balkingLaunchd
      ensures Valid() && obligingLaunchd && !balkingLaunchd
    {
      obligingLaunchd, balkingLaunchd := true, false;
    }

    /** The caller's binder looks at both files and says yes or no. */
    method Bind() returns (ok: bool)
      requires Valid()
      modifies this`world, this`rest, this`still, this`log, this`mon
      ensures Looked() && Logged(BindArtifacts(ok))
      ensures obligingLaunchd ==> ok
    {
      hide Step, Watch;
      Interfere();
      ok := *;
      if obligingLaunchd { ok := true; }
      Note(BindArtifacts(ok));
    }

    // ---- file system calls ----

    method StatFolder(dir: nat) returns (f: Option<Folder>)
      requires Valid()
      modifies this`world, this`rest, this`still
      ensures Looked()
      ensures f.Some? ==> dir in rest.folders && f.value == rest.folders[dir]
      ensures f.Some? ==> (f.value.isDirectory <==> dir in directories)
      ensures sturdyLooks && dir in directories ==> f.Some?
    {
      Interfere();
      var fails: bool := *;
      f := if dir in rest.folders && (sturdyLooks || !fails) then Some(rest.folders[dir]) else None;
    }

    /** The path behind a directory descriptor. */
    method PathOf(dir: nat) returns (path: Option<string>)
      requires Valid()
      modifies this`world, this`rest, this`still, this`log, this`mon
      ensures Saw(FolderPath(dir, path))
      ensures path.Some? ==> dir in rest.folders && path.value == rest.folders[dir].path
      ensures sturdyLooks && dir in rest.folders ==> path.Some?
    {
      Interfere();
      var fails: bool := *;
      path := if dir in rest.folders && (sturdyLooks || !fails) then Some(rest.folders[dir].path) else None;
      Look(FolderPath(dir, path));
    }

    method StatPath(k: Key) returns (s: PathStat)
      requires Valid() && k in keys
      modifies this`world, this`rest, this`still
      ensures Looked()
      ensures s.Found? ==> k in world.entries && s.stat == StatOf(world.entries[k], world.inodes[world.entries[k]])
      ensures s.NotFound? ==> k !in world.entries
      ensures sturdyLooks ==> !s.StatFailed?
    {
      Interfere();
      var fails: bool := *;
      s := if fails && !sturdyLooks then StatFailed
      else if k in world.entries then Found(StatOf(world.entries[k], world.inodes[world.entries[k]]))
      else NotFound;
    }

    method StatDescriptor(ino: nat) returns (s: Option<Stat>)
      requires Valid() && ino in world.held
      modifies this`world, this`rest, this`still
      ensures Looked()
      ensures s.Some? ==> s.value == StatOf(ino, world.inodes[ino])
      ensures sturdyLooks ==> s.Some?
    {
      Interfere();
      var fails: bool := *;
      s := if fails && !sturdyLooks then None else Some(StatOf(ino, world.inodes[ino]));
    }

    /** Exclusive creation: it never opens a child that exists, and the new inode number is not in use. */
    method OpenExclusive(k: Key) returns (r: OpenResult)
      requires Valid() && k in keys
      modifies this`world, this`rest, this`still, this`unsynced, this`log, this`mon
      ensures Valid()
      ensures unsynced == if r.Fd? then Unsynced(old(unsynced).files + {r.ino}, old(unsynced).folders + {k.dir})
                          else old(unsynced)
      ensures !r.Fd? ==> Looked() && log == old(log) && mon == old(mon)
      ensures r.Fd? ==> Logged(Opened(k, r.ino)) && r.ino in world.held && r.ino !in old(world.held) && r.ino != 0
      ensures r.Fd? ==> world.held == old(world.held) + {r.ino}
      ensures r.Fd? && exclusive ==> k !in old(world).entries && r.ino !in old(world).inodes
      ensures r.Fd? && exclusive ==>
                world == WithFile(old(world), k, r.ino,
                                  Inode(Regular, [], 0, world.inodes[r.ino].uid, world.inodes[r.ino].gid, 1))
      ensures exclusive && r == Exists ==> k in world.entries
      ensures sturdyFiles ==> r != OpenFailed
    {
      hide Step, Watch;
      Interfere();
      var fails: bool := *;
      if fails && !sturdyFiles {
        r := OpenFailed;
      } else if k in world.entries {
        r := Exists;
      } else {
        var ino: nat := *;
        if ino == 0 || ino in world.inodes || ino in rest.inodes { ino := MaxPlusOne(world.inodes.Keys + rest.inodes); }
        var u: nat, g: nat := *, *;
        world := WithFile(world, k, ino, Inode(Regular, [], 0, u, g, 1));
        unsynced := Unsynced(unsynced.files + {ino}, unsynced.folders + {k.dir});
        Note(Opened(k, ino));
        r := Fd(ino);
      }
    }

    /** Write some non-empty prefix of `bytes`, or be interrupted, or fail. */
    method Write(ino: nat, off: nat, bytes: seq<Byte>) returns (c: IoCount)
      requires Valid() && ino in world.held
      modifies this`world, this`rest, this`still, this`unsynced, this`interrupts
      ensures Valid() && world.held == old(world.held) && interrupts <= old(interrupts)
      ensures unsynced == if c.Count? then old(unsynced).(files := old(unsynced).files + {ino}) else old(unsynced)
      ensures c.WriteInterrupted? ==> interrupts < old(interrupts)
      ensures c.Count? ==> c.n <= |bytes|
      ensures sturdyFiles && |bytes| > 0 ==> !c.WriteFailed? && (c.Count? ==> c.n > 0)
      ensures exclusive ==>
                world == if c.Count?
                then WithInode(old(world), ino, old(world).inodes[ino].(
                               data := Splice(old(world).inodes[ino].data, off, bytes[..c.n])))
                else old(world)
    {
      hide Step, Watch;
      Interfere();
      var n: nat, fails: bool, stops: bool := *, *, *;
      if stops && interrupts > 0 {
        interrupts := interrupts - 1;
        c := WriteInterrupted;
      } else if fails && !sturdyFiles {
        c := WriteFailed;
      } else {
        if n > |bytes| || (n == 0 && sturdyFiles) { n := |bytes|; }
        var i := world.inodes[ino];
        world := WithInode(world, ino, i.(data := Splice(i.data, off, bytes[..n])));
        unsynced := unsynced.(files := unsynced.files + {ino});
        c := Count(n);
      }
    }

    /** Read at most `want` bytes from an offset. */
    method Pread(ino: nat, want: nat, off: nat) returns (d: IoData)
      requires Valid() && ino in world.held
      modifies this`world, this`rest, this`still, this`interrupts
      ensures Looked() && interrupts <= old(interrupts)
      ensures d.ReadInterrupted? ==> interrupts < old(interrupts)
      ensures d.Data? ==> |d.bytes| <= want
      ensures d.Data? && |d.bytes| > 0 ==>
                off + |d.bytes| <= |world.inodes[ino].data| && d.bytes == world.inodes[ino].data[off..off + |d.bytes|]
      ensures sturdyFiles && want > 0 && off < |world.inodes[ino].data| ==>
                !d.ReadFailed? && (d.Data? ==> |d.bytes| > 0)
    {
      Interfere();
      var n: nat, fails: bool, stops: bool := *, *, *;
      var content := world.inodes[ino].data;
      if stops && interrupts > 0 {
        interrupts := interrupts - 1;
        d := ReadInterrupted;
      } else if fails && !sturdyFiles {
        d := ReadFailed;
      } else if off >= |content| {
        d := Data([]);
      } else {
        var limit := if want < |content| - off then want else |content| - off;
        if n > limit || (n == 0 && sturdyFiles) { n := limit; }
        d := Data(content[off..off + n]);
      }
    }

    /** fchown and fchmod through the retained descriptor. */
    method SetOwnerAndMode(ino: nat, owner: nat, group: nat, mode: nat) returns (ok: bool)
      requires Valid() && ino in world.held
      modifies this`world, this`rest, this`still, this`unsynced
      ensures Valid() && world.held == old(world.held)
      ensures unsynced == old(unsynced).(files := old(unsynced).files + {ino})
      ensures sturdyFiles ==> ok
      ensures exclusive ==> world == WithInode(old(world), ino, old(world).inodes[ino].(
                                               uid := world.inodes[ino].uid, gid := world.inodes[ino].gid,
                                               mode := world.inodes[ino].mode))
      ensures exclusive && ok ==>
                world == WithInode(old(world), ino, old(world).inodes[ino].(uid := owner, gid := group, mode := mode))
    {
      hide Step, Watch;
      Interfere();
      var owned: bool, moded: bool := *, *;
      if sturdyFiles { owned, moded := true, true; }
      var i := world.inodes[ino];
      if owned { i := i.(uid := owner, gid := group); }
      ok := owned && moded;
      if ok { i := i.(mode := mode); }
      unsynced := unsynced.(files := unsynced.files + {ino});
      world := WithInode(world, ino, i);
    }

    /** fsync of a file through its retained descriptor. */
    method SyncFile(ino: nat) returns (ok: bool)
      requires Valid() && ino in world.held
      modifies this`world, this`rest, this`still, this`unsynced
      ensures Looked()
      ensures unsynced == if ok then old(unsynced).(files := old(unsynced).files - {ino}) else old(unsynced)
      ensures sturdyFiles ==> ok
    {
      Interfere();
      ok := *;
      if sturdyFiles { ok := true; }
      if ok { unsynced := unsynced.(files := unsynced.files - {ino}); }
    }

    /** fsync of a folder. */
    method SyncFolder(dir: nat) returns (ok: bool)
      requires Valid()
      modifies this`world, this`rest, this`still, this`unsynced
      ensures Looked()
      ensures unsynced == if ok then old(unsynced).(folders := old(unsynced).folders - {dir}) else old(unsynced)
      ensures sturdyLooks ==> ok
    {
      Interfere();
      ok := *;
      if sturdyLooks { ok := true; }
      if ok { unsynced := unsynced.(folders := unsynced.folders - {dir}); }
    }

    /** Removal by name, of whatever the name leads to by then; `sure` says that nobody came between. */
    method UnlinkPath(k: Key) returns (ok: bool, ghost ino: nat, ghost sure: bool)
      requires Valid() && k in keys
      modifies this`world, this`rest, this`still, this`unsynced, this`log, this`mon
      ensures Valid() && world.held == old(world.held) && (exclusive ==> sure)
      ensures unsynced == if ok then old(unsynced).(folders := old(unsynced).folders + {k.dir}) else old(unsynced)
      ensures still ==> old(still) && world.jobs == old(world).jobs
      ensures !ok ==> Looked() && log == old(log) && mon == old(mon)
      ensures ok ==>
                Logged(Unlinked(k, ino, sure)) && (sure ==> k in old(world).entries && ino == old(world).entries[k])
      ensures ok && exclusive ==> k in old(world).entries && world == RemoveEntry(old(world), k)
      ensures sturdyLooks && exclusive && k in old(world).entries ==> ok
    {
      hide Step, Watch;
      Interfere();
      ino := if k in world.entries then world.entries[k] else 0;
      sure := k in old(world).entries && k in world.entries && world.entries[k] == old(world).entries[k];
      sure := sure || exclusive;
      var fails: bool := *;
      ok := k in world.entries && (sturdyLooks || !fails);
      if ok {
        unsynced := unsynced.(folders := unsynced.folders + {k.dir});
        Note(Unlinked(k, world.entries[k], sure));
        world := RemoveEntry(world, k);
      }
    }

    method CloseDescriptor(ino: nat)
      requires Valid()
      modifies this`world
      ensures Valid() && world == Release(old(world), ino)
    {
      hide Step, Watch;
      world := Release(world, ino);
    }
  }
}
