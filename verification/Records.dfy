/** The state of a machine as a value: directory accounts, launchd jobs, directory entries and inodes. */
module Records {
  import opened Basics

  const FIXED_LABEL := "de.frederikstadler" + ".bitwarden-agent" + "-credential-bridge" + ".helper"
  const BINARY_NAME := FIXED_LABEL
  const PLIST_NAME := FIXED_LABEL + ".plist"
  const ACCOUNT_NAME := "_bwagentbridge"

  datatype AccountRecord = AccountRecord(
    name: string, uniqueId: nat, generatedUid: string, shell: string, home: string)

  datatype JobRecord = JobRecord(
    jobLabel: string, program: string, userName: string, machService: string,
    binarySha256: string, plistSha256: string, demandOnly: bool)

  /** What a cleared ownership record holds. */
  const NO_ACCOUNT := AccountRecord("", 0, "", "", "")
  const NO_JOB := JobRecord("", "", "", "", "", "", false)

  /** What the directory holds under one name; a half-finished create leaves some fields out. */
  datatype Account = Account(
    uid: Option<nat>, guid: Option<string>, shell: Option<string>, home: Option<string>)

  function Complete(r: AccountRecord): Account {
    Account(Some(r.uniqueId), Some(r.generatedUid), Some(r.shell), Some(r.home))
  }

  datatype Job = Job(record: JobRecord, running: bool)

  /**
   Alike in all that launchd can be asked to print of a job loaded under a label: digests, Mach name and start policy
   are not printed.
   */
  predicate Alike(a: JobRecord, b: JobRecord) { a.program == b.program && a.userName == b.userName }

  datatype Kind = Regular | OtherKind

  datatype Inode = Inode(kind: Kind, data: seq<Byte>, mode: nat, uid: nat, gid: nat, links: nat)

  /** A child of a retained parent directory. */
  datatype Key = Key(dir: nat, name: string)

  /** What a stat of a retained parent directory shows. */
  datatype Folder = Folder(isDirectory: bool, uid: nat, othersWrite: bool, hasAcl: bool, path: string)

  /** The fixed slots, the inodes a run may create or find there, and the descriptors it keeps open. */
  datatype World = World(
    accounts: map<string, Account>,
    jobs: map<string, Job>,
    machs: set<string>,
    entries: map<Key, nat>,
    inodes: map<nat, Inode>,
    held: set<nat>)        // inodes behind descriptors this process keeps open

  /** Everything else, as far as a run can see it: all other accounts, the parents' attributes, inode numbers in use. */
  datatype Rest = Rest(accounts: map<string, Account>, folders: map<nat, Folder>, inodes: set<nat>)

  /** What this process has changed and not synced since: the contents of files, and the entries of folders. */
  datatype Unsynced = Unsynced(files: set<nat>, folders: set<nat>)

  /** An inode number stands for a (device, inode) pair; 0 is what an unset record holds. */
  ghost predicate WellFormed(w: World) {
    && (forall k <- w.entries :: w.entries[k] in w.inodes)
    && w.held <= w.inodes.Keys
    && 0 !in w.inodes
  }

  predicate HasUid(accounts: map<string, Account>, uid: nat) {
    exists n <- accounts :: accounts[n].uid == Some(uid)
  }

  predicate HasGuid(accounts: map<string, Account>, guid: string) {
    exists n <- accounts :: accounts[n].guid == Some(guid)
  }

  predicate UidTaken(w: World, o: Rest, uid: nat) { HasUid(w.accounts, uid) || HasUid(o.accounts, uid) }

  predicate GuidTaken(w: World, o: Rest, guid: string) { HasGuid(w.accounts, guid) || HasGuid(o.accounts, guid) }

  /** `b` is `a` up to the one account slot. */
  ghost predicate AccountSlotOnly(a: World, b: World, name: string) {
    b == a.(accounts := b.accounts) && b.accounts - {name} == a.accounts - {name}
  }

  /** `b` is `a` up to the one job slot and its Mach name. */
  ghost predicate JobSlotOnly(a: World, b: World, j: JobRecord) {
    && b == a.(jobs := b.jobs, machs := b.machs)
    && b.jobs - {j.jobLabel} == a.jobs - {j.jobLabel}
    && b.machs - {j.machService} == a.machs - {j.machService}
  }

  lemma AccountSlotSame(a: World, name: string)
    ensures AccountSlotOnly(a, a, name)
  {
  }

  lemma AccountSlotTwice(a: World, b: World, c: World, name: string)
    requires AccountSlotOnly(a, b, name) && AccountSlotOnly(b, c, name)
    ensures AccountSlotOnly(a, c, name)
  {
  }

  lemma JobSlotSame(a: World, j: JobRecord)
    ensures JobSlotOnly(a, a, j)
  {
  }

  lemma JobSlotTwice(a: World, b: World, c: World, j: JobRecord)
    requires JobSlotOnly(a, b, j) && JobSlotOnly(b, c, j)
    ensures JobSlotOnly(a, c, j)
  {
  }

  datatype Stat = Stat(ino: nat, kind: Kind, mode: nat, uid: nat, gid: nat, size: nat, links: nat)

  function StatOf(ino: nat, i: Inode): Stat {
    Stat(ino, i.kind, i.mode, i.uid, i.gid, |i.data|, i.links)
  }

  /** The part of a stat that must agree between the descriptor and the path. */
  predicate SameIdentity(a: Stat, b: Stat) {
    a.(links := 0) == b.(links := 0)
  }

  datatype PathStat = Found(stat: Stat) | NotFound | StatFailed
  datatype OpenResult = Fd(ino: nat) | Exists | OpenFailed
  datatype IoCount = Count(n: nat) | WriteInterrupted | WriteFailed
  datatype IoData = Data(bytes: seq<Byte>) | ReadInterrupted | ReadFailed

  /** `c` written at offset `off` of `d`; a gap left by a concurrent truncation reads as zeros. */
  function Splice(d: seq<Byte>, off: nat, c: seq<Byte>): seq<Byte> {
    if off <= |d| then d[..off] + c + (if off + |c| <= |d| then d[off + |c|..] else [])
    else d + seq(off - |d|, _ => 0) + c
  }

  function WithInode(w: World, ino: nat, i: Inode): World {
    w.(inodes := w.inodes[ino := i])
  }

  lemma WithInodeTwice(w: World, ino: nat, i: Inode, j: Inode)
    ensures WithInode(WithInode(w, ino, i), ino, j) == WithInode(w, ino, j)
  {
    assert w.inodes[ino := i][ino := j] == w.inodes[ino := j];
  }

  /** The world after one file appeared: a single new entry for a single new inode, kept open. */
  function WithFile(w: World, k: Key, ino: nat, i: Inode): World {
    w.(entries := w.entries[k := ino], inodes := w.inodes[ino := i], held := w.held + {ino})
  }

  function RemoveEntry(w: World, k: Key): World
    requires k in w.entries && w.entries[k] in w.inodes
  {
    var ino := w.entries[k];
    var i := w.inodes[ino];
    w.(entries := w.entries - {k}, inodes := w.inodes[ino := i.(links := if i.links > 0 then i.links - 1 else 0)])
  }

  function Release(w: World, ino: nat): World {
    w.(held := w.held - {ino},
    inodes := if ino in w.inodes && w.inodes[ino].links == 0 && (forall k <- w.entries :: w.entries[k] != ino)
    then w.inodes - {ino} else w.inodes)
  }

  function MaxPlusOne(s: set<nat>): (r: nat)
    ensures r > 0 && forall x <- s :: x < r
  {
    if s == {} then 1
    else
      assert exists m: nat :: m in s && forall x <- s :: x <= m by { MaximumExists(s); }
      var m :| m in s && forall x <- s :: x <= m;
      m + 1
  }

  lemma MaximumExists(s: set<nat>)
    requires s != {}
    ensures exists m :: m in s && forall x <- s :: x <= m
  {
    var y :| y in s;
    if s != {y} {
      MaximumExists(s - {y});
      var m :| m in s - {y} && forall x <- s - {y} :: x <= m;
      assert forall x <- s :: x == y || x in s - {y};
      assert (if m < y then y else m) in s;
    }
  }
}
