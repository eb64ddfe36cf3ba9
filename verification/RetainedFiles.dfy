/** Files published under fixed names and owned through retained descriptors. */
module RetainedFiles {
  import opened Basics
  import opened Records
  import opened Discipline
  import opened HostModel

  const MAX_FILE_BYTES: nat := 64 * 1024 * 1024
  const READ_BUFFER: nat := 4096

  predicate ValidName(name: string) {
    0 < |name| < 256 && name[0] != '.' && '/' !in name && '\0' !in name
  }

  predicate Plain(s: string) { '/' !in s && '\0' !in s }

  lemma PlainJoined(a: string, b: string)
    requires Plain(a) && Plain(b)
    ensures Plain(a + b)
  {
  }

  lemma PlainName(s: string)
    requires Plain(s) && 0 < |s| < 256 && s[0] != '.'
    ensures ValidName(s)
  {
  }

  /** The fixed names are built from these. */
  lemma PlainParts()
    ensures Plain("de.frederikstadler") && Plain(".bitwarden-agent") && Plain("-credential-bridge")
  {
  }

  lemma PlainEndings()
    ensures Plain(".helper") && Plain(".plist") && Plain(".lifecycle-runner")
  {
  }

  /** Write every byte, whatever the pattern of short writes and interruptions. */
  method WriteAll(h: Host, ino: nat, bytes: seq<Byte>) returns (ok: bool)
    requires h.Valid() && ino in h.world.held
    requires h.exclusive ==> h.world.inodes[ino].data == []
    modifies h`world, h`rest, h`still, h`unsynced, h`interrupts
    ensures h.Valid() && h.world.held == old(h.world.held)
    ensures h.exclusive ==>
              h.world == WithInode(old(h.world), ino, old(h.world).inodes[ino].(data := h.world.inodes[ino].data))
    ensures h.exclusive && ok ==> h.world.inodes[ino].data == bytes
    ensures h.unsynced.files <= old(h.unsynced).files + {ino} && h.unsynced.folders == old(h.unsynced).folders
    ensures h.sturdyFiles ==> ok
  {
    hide Step, Watch, Host.Separate;
    var offset := 0;
    assert h.world == WithInode(h.world, ino, h.world.inodes[ino]);
    while offset < |bytes|
      invariant 0 <= offset <= |bytes|
      invariant h.Valid() && h.world.held == old(h.world.held)
      invariant h.unsynced.files <= old(h.unsynced).files + {ino} && h.unsynced.folders == old(h.unsynced).folders
      invariant h.exclusive ==>
                  h.world == WithInode(old(h.world), ino, old(h.world).inodes[ino].(data := bytes[..offset]))
      decreases |bytes| - offset, h.interrupts
    {
      ghost var before := h.world;
      var c := h.Write(ino, offset, bytes[offset..]);
      match c {
        case WriteInterrupted =>
        case WriteFailed => return false;
        case Count(n) =>
          if n == 0 { return false; }
          assert Splice(bytes[..offset], offset, bytes[offset..][..n]) == bytes[..offset + n];
          if h.exclusive { WithInodeTwice(old(h.world), ino, before.inodes[ino], h.world.inodes[ino]); }
          offset := offset + n;
      }
    }
    assert bytes[..offset] == bytes;
    ok := true;
  }

  /** Compare the retained file with the expected bytes through reads of at most one buffer. */
  method ReadMatches(h: Host, ino: nat, expected: seq<Byte>) returns (ok: bool)
    requires h.Valid() && ino in h.world.held
    modifies h`world, h`rest, h`still, h`interrupts
    ensures h.Looked()
    ensures h.exclusive && ok ==> expected <= h.world.inodes[ino].data
    ensures h.exclusive && h.sturdyFiles && expected <= h.world.inodes[ino].data ==> ok
  {
    hide Step, Watch, Host.Separate;
    var offset := 0;
    while offset < |expected|
      invariant 0 <= offset <= |expected|
      invariant h.Looked()
      invariant h.exclusive ==>
                  offset <= |h.world.inodes[ino].data| && h.world.inodes[ino].data[..offset] == expected[..offset]
      decreases |expected| - offset, h.interrupts
    {
      var wanted := |expected| - offset;
      if wanted > READ_BUFFER { wanted := READ_BUFFER; }
      var d := h.Pread(ino, wanted, offset);
      match d {
        case ReadInterrupted =>
        case ReadFailed => return false;
        case Data(bytes) =>
          if |bytes| == 0 || bytes != expected[offset..offset + |bytes|] { return false; }
          assert expected[..offset + |bytes|] == expected[..offset] + bytes;
          if h.exclusive {
            ghost var data := h.world.inodes[ino].data;
            assert data[..offset + |bytes|] == data[..offset] + data[offset..offset + |bytes|];
          }
          offset := offset + |bytes|;
      }
    }
    assert expected[..offset] == expected;
    ok := true;
  }

  /** At most this file and this folder are still to be synced that were not before, and neither of them when `done`. */
  predicate Unstored(u: Unsynced, v: Unsynced, ino: nat, dir: nat, done: bool) {
    && v.files <= u.files + {ino} && v.folders <= u.folders + {dir}
    && (done ==> ino !in v.files && dir !in v.folders)
  }

  /** Likewise for a folder alone. */
  predicate Unlisted(u: Unsynced, v: Unsynced, dir: nat, done: bool) {
    v.folders <= u.folders + {dir} && (done ==> dir !in v.folders)
  }

  class OwnedFile {
    var dir: Option<nat>
    var fd: Option<nat>       // the inode behind the retained descriptor
    var inode: nat            // the recorded identity; 0 until the first stat of the new file
    var name: string
    var created: bool

    constructor ()
      ensures dir.None? && fd.None? && inode == 0 && name == "" && !created
    {
      dir, fd, inode, name, created := None, None, 0, "", false;
    }

    ghost predicate Valid(h: Host) reads this, h {
      && (fd.Some? ==> fd.value in h.world.held)
      && (created ==> dir.Some? && fd.Some? && ValidName(name) && (Key(dir.value, name), fd.value) in h.mon.openFiles)
      && (created ==> dir.value in h.directories && Path() in h.keys)
      && (created && inode != 0 ==> inode == fd.value)
    }

    function Path(): Key
      requires dir.Some?
      reads this
    {
      Key(dir.value, name)
    }

    /** The file as published: the entry leads to the retained inode, which has no other name. */
    ghost predicate InPlace(w: World) reads this {
      && created && dir.Some? && fd.Some? && inode == fd.value
      && Path() in w.entries && w.entries[Path()] == inode && inode in w.inodes && w.inodes[inode].links == 1
      && (forall k <- w.entries :: k != Path() ==> w.entries[k] != inode)
    }

    method Reset()
      modifies this
      ensures dir.None? && fd.None? && inode == 0 && name == "" && !created
    {
      dir, fd, inode, name, created := None, None, 0, "", false;
    }

    /** A stat of the retained parent; its identity is that of the directory the descriptor was opened on. */
    method ParentOk(h: Host) returns (ok: bool)
      requires h.Valid() && dir.Some?
      modifies h`world, h`rest, h`still
      ensures h.Looked()
      ensures ok ==> dir.value in h.directories
      ensures h.sturdyLooks && dir.value in h.directories ==> ok
    {
      var f := h.StatFolder(dir.value);
      ok := f.Some? && f.value.isDirectory;
    }

    /** Everything after the exclusive create: contents, owner, mode, durability, verification. */
    method Fill(h: Host, bytes: seq<Byte>, mode: nat, owner: nat, group: nat) returns (r: Answer)
      requires h.Valid() && Valid(h) && created && inode == 0 && bytes != [] && mode <= 0x1ff
      requires h.exclusive ==> InPlace'(h.world) && h.world.inodes[fd.value].kind == Regular
      requires h.exclusive ==> h.world.inodes[fd.value].links == 1 && h.world.inodes[fd.value].data == []
      modifies this`inode, h`world, h`rest, h`still, h`unsynced, h`interrupts, h`log, h`mon
      ensures h.Valid() && Valid(h) && h.world.held == old(h.world.held)
      ensures r == Ok || r == Ambiguous
      ensures r == Ok ==> inode == fd.value
      ensures && h.mon == old(h.mon)
              && h.log ==
                 if r == Ok then Then(old(h.log), FileVerified(Path(), inode, bytes, mode, owner, group))
                 else old(h.log)
      ensures h.exclusive ==>
                && h.world == WithInode(old(h.world), fd.value, h.world.inodes[fd.value])
                && h.world.inodes[fd.value].links == 1
      ensures h.exclusive && r == Ok ==> h.world.inodes[fd.value] == Inode(Regular, bytes, mode, owner, group, 1)
      // what is on record as published is on disk, the file and its entry
      ensures Unstored(old(h.unsynced), h.unsynced, fd.value, dir.value, r == Ok)
      // the identity is on record from the first look on, before anything else can go wrong
      ensures h.exclusive && h.sturdyLooks ==> inode == fd.value && inode != 0
      ensures h.exclusive && h.sturdyFiles ==> r == Ok
    {
      hide Step, Watch, ValidName, Host.Separate;
      ghost var w0 := h.world;
      var ino := fd.value;
      assert w0 == WithInode(w0, ino, w0.inodes[ino]);
      var initial := h.StatDescriptor(ino);
      if initial.None? || initial.value.kind != Regular || initial.value.links != 1 { return Ambiguous; }
      inode := initial.value.ino;
      var written := WriteAll(h, ino, bytes);
      if !written { return Ambiguous; }
      ghost var w1 := h.world;
      var applied := h.SetOwnerAndMode(ino, owner, group, mode);
      if h.exclusive { WithInodeTwice(w0, ino, w1.inodes[ino], h.world.inodes[ino]); }
      if !applied { return Ambiguous; }
      var synced := h.SyncFile(ino);
      if !synced { return Ambiguous; }
      synced := h.SyncFolder(dir.value);
      if !synced { return Ambiguous; }
      r := Verify(h, bytes, mode, owner, group);
    }

    /** As `InPlace`, before the identity has been recorded. */
    ghost predicate InPlace'(w: World) reads this {
      && created && dir.Some? && fd.Some?
      && Path() in w.entries && w.entries[Path()] == fd.value && fd.value in w.inodes
    }

    /** The exclusive create, and the ownership record it justifies. */
    method OpenNew(h: Host, parent: nat, fixedName: string) returns (r: Answer)
      requires h.Valid() && ValidName(fixedName) && Key(parent, fixedName) in h.keys
      modifies this, h`world, h`rest, h`still, h`unsynced, h`log, h`mon
      ensures h.Valid() && Valid(h) && r != Ambiguous && inode == 0
      ensures r != Ok ==> !created && fd.None? && h.Looked() && h.log == old(h.log) && h.mon == old(h.mon)
      ensures r == Ok ==>
                && created
                && parent in h.directories
                && dir == Some(parent)
                && name == fixedName
                && fd.Some?
                && fd.value !in old(h.world.held)
                && h.world.held == old(h.world.held) + {fd.value}
                && h.Logged(Opened(Key(parent, fixedName), fd.value))
                && h.unsynced == Unsynced(old(h.unsynced).files + {fd.value}, old(h.unsynced).folders + {parent})
      ensures r != Ok ==> h.unsynced == old(h.unsynced)
      ensures h.exclusive && r == NoEffect ==> Key(parent, fixedName) in h.world.entries
      ensures h.exclusive && r == Ok ==>
                && Key(parent, fixedName) !in old(h.world).entries && fd.value !in old(h.world).inodes
                && var blank := h.world.inodes[fd.value];
                   h.world == WithFile(old(h.world), Key(parent, fixedName), fd.value,
                                       Inode(Regular, [], 0, blank.uid, blank.gid, 1))
      ensures h.exclusive && h.sturdyFiles && parent in h.directories ==>
                r == if Key(parent, fixedName) in old(h.world).entries then NoEffect else Ok
    {
      hide Step, Watch, ValidName, Host.Separate, WithFile;
      Reset();
      var folder := h.StatFolder(parent);
      if folder.None? || !folder.value.isDirectory { return Error; }
      var child := h.OpenExclusive(Key(parent, fixedName));
      if !child.Fd? { return if child == Exists then NoEffect else Error; }
      StepOpened(old(h.mon), old(h.log), Key(parent, fixedName), child.ino);
      dir, fd, name, created := Some(parent), Some(child.ino), fixedName, true;
      r := Ok;
    }

    method Publish(h: Host, parent: nat, fixedName: string, bytes: seq<Byte>, mode: nat, owner: nat, group: nat)
      returns (r: Answer)
      requires h.Valid() && Valid(h) && (Publishable(fixedName, bytes, mode) ==> Key(parent, fixedName) in h.keys)
      modifies this, h`world, h`rest, h`still, h`unsynced, h`interrupts, h`log, h`mon
      ensures h.Valid() && Valid(h)
      ensures !Publishable(fixedName, bytes, mode) ==>
                r == Error && h.world == old(h.world) && h.log == old(h.log) && h.mon == old(h.mon) && unchanged(this)
      ensures Publishable(fixedName, bytes, mode) ==>
                && (created <==> r == Ok || r == Ambiguous)
                && (created ==> dir == Some(parent) && name == fixedName && fd.Some? && fd.value !in old(h.world.held))
                && (created ==> parent in h.directories)
                && (r == Ok ==> inode == fd.value)
                && h.world.held == old(h.world.held) + (if created then {fd.value} else {})
                && (!created ==> fd.None?)
                && (!created ==> h.log == old(h.log) && h.mon == old(h.mon))
                && (created ==> h.mon == Step(old(h.mon), old(h.log), Opened(Key(parent, fixedName), fd.value)))
                && (r == Ambiguous ==> h.log == Then(old(h.log), Opened(Key(parent, fixedName), fd.value)))
                && (r == Ok ==> h.log == Then(Then(old(h.log), Opened(Key(parent, fixedName), fd.value)),
                                              FileVerified(Key(parent, fixedName), inode, bytes, mode, owner, group)))
      // a published file is on disk, and so is its entry
      ensures if created && fd.Some? && r in {Ok, Ambiguous} then
                Unstored(old(h.unsynced), h.unsynced, fd.value, parent, r == Ok)
              else h.unsynced == old(h.unsynced)
      // while others leave the slots alone: one new entry, one new inode, and nothing else
      ensures h.exclusive && r !in {Ok, Ambiguous} ==> h.world == old(h.world)
      ensures h.exclusive && r == NoEffect ==> Key(parent, fixedName) in h.world.entries
      ensures h.exclusive && r in {Ok, Ambiguous} ==>
                && Key(parent, fixedName) !in old(h.world).entries && fd.value !in old(h.world).inodes
                && fd.value in h.world.inodes && h.world.inodes[fd.value].links == 1
                && h.world == WithFile(old(h.world), Key(parent, fixedName), fd.value, h.world.inodes[fd.value])
      ensures h.exclusive && r == Ok ==> h.world.inodes[fd.value] == Inode(Regular, bytes, mode, owner, group, 1)
      // once the identity is recorded the file can be removed again, however far the rest got
      ensures h.exclusive && r in {Ok, Ambiguous} && inode != 0 ==> InPlace(h.world)
      ensures h.exclusive && h.sturdyLooks && r in {Ok, Ambiguous} ==> inode != 0
      ensures h.exclusive && h.sturdyFiles && Publishable(fixedName, bytes, mode) &&
              parent in h.directories ==>
                r == if Key(parent, fixedName) in old(h.world).entries then NoEffect else Ok
    {
      hide Step, Watch, ValidName, Host.Separate;
      if !Publishable(fixedName, bytes, mode) { return Error; }
      r := OpenNew(h, parent, fixedName);
      if r != Ok { return; }
      ghost var w1 := h.world;
      r := Fill(h, bytes, mode, owner, group);
      if h.exclusive { WithFileFilled(old(h.world), Path(), fd.value, w1.inodes[fd.value], h.world.inodes[fd.value]); }
    }

    method Verify(h: Host, expected: seq<Byte>, mode: nat, owner: nat, group: nat) returns (r: Answer)
      requires h.Valid() && Valid(h)
      modifies h`world, h`rest, h`still, h`interrupts, h`log, h`mon
      ensures h.Looked() && Valid(h)
      ensures !created || expected == [] ==> r == Error
      ensures created && expected != [] ==> r == Ok || r == Ambiguous
      ensures r == Ok ==> inode == fd.value
      ensures && h.mon == old(h.mon)
              && h.log ==
                 if r == Ok then Then(old(h.log), FileVerified(Path(), inode, expected, mode, owner, group))
                 else old(h.log)
      ensures h.exclusive && created && expected != [] ==>
                (r == Ok ==>
                   && InPlace'(h.world) && inode == fd.value
                   && h.world.inodes[inode] == Inode(Regular, expected, h.world.inodes[inode].mode, owner, group, 1)
                   && h.world.inodes[inode].mode % 0x200 == mode)
      ensures (h.exclusive && h.sturdyFiles && created && expected != [] && InPlace'(h.world) && inode == fd.value &&
               mode <= 0x1ff &&
               h.world.inodes[inode] == Inode(Regular, expected, mode, owner, group, 1)) ==> r == Ok
    {
      hide Step, Watch, ValidName, Host.Separate;
      if !created || expected == [] { return Error; }
      var parentOk := ParentOk(h);
      if !parentOk { return Ambiguous; }
      var retained := h.StatDescriptor(fd.value);
      if retained.None? { return Ambiguous; }
      var path := h.StatPath(Path());
      if !path.Found? { return Ambiguous; }
      var s := retained.value;
      if s.kind != Regular || s.links != 1 || s.ino != inode || !SameIdentity(s, path.stat) || s.size != |expected| ||
         s.mode % 0x200 != mode || s.uid != owner || s.gid != group { return Ambiguous; }
      var same := ReadMatches(h, fd.value, expected);
      if !same { return Ambiguous; }
      h.Look(FileVerified(Path(), inode, expected, mode, owner, group));
      r := Ok;
    }

    /** The descriptor and the entry show the same file, the one that was created. */
    method LooksOurs(h: Host) returns (ok: bool)
      requires h.Valid() && Valid(h) && created
      modifies h`world, h`rest, h`still
      ensures h.Looked() && Valid(h)
      ensures ok ==> Path() in h.world.entries && h.world.entries[Path()] == inode == fd.value
      ensures ok && h.exclusive ==> h.world.inodes[inode].links == 1
      ensures h.exclusive && h.sturdyLooks && InPlace(h.world) ==> ok
    {
      hide Step, Watch, ValidName, Host.Separate;
      var parentOk := ParentOk(h);
      if !parentOk { return false; }
      var retained := h.StatDescriptor(fd.value);
      if retained.None? { return false; }
      var path := h.StatPath(Path());
      ok := path.Found? && retained.value.ino == inode && retained.value.links == 1 &&
            SameIdentity(retained.value, path.stat);
    }

    /** One removal was logged, of the recorded inode unless somebody came between the last look and the removal. */
    twostate predicate Removed(h: Host) reads this, h {
      && dir.Some?
      && fd.Some?
      && h.log.Then?
      && h.log.past == old(h.log)
      && h.log.last.Unlinked?
      && h.log.last.key == Path()
      && (h.log.last.sure ==> h.log.last.ino == fd.value)
      && h.mon == Placed(old(h.mon), if name == PLIST_NAME then 8 else 9)
    }

    /** Removal: only while the entry still leads to the inode this record created. */
    method Unlink(h: Host) returns (r: Answer)
      requires h.Valid() && Valid(h)
      modifies this`created, h`world, h`rest, h`still, h`unsynced, h`log, h`mon
      ensures h.Valid() && Valid(h) && h.world.held == old(h.world.held)
      ensures !old(created) ==>
                r == NoEffect && !created && h.world == old(h.world) && h.log == old(h.log) && h.mon == old(h.mon)
      ensures old(created) ==> (r == Ok && !created) || (r == Ambiguous && created)
      ensures (h.log == old(h.log) && h.mon == old(h.mon)) || (old(created) && inode == fd.value && Removed(h))
      ensures r == Ok ==> inode == fd.value && Removed(h)
      ensures h.exclusive ==>
                || h.world == old(h.world)
                || (old(created) && Path() in old(h.world).entries &&
                    old(h.world).entries[Path()] == inode == fd.value && old(h.world).inodes[inode].links == 1 &&
                    h.world == RemoveEntry(old(h.world), Path()))
      ensures h.exclusive && r == Ok ==> Path() in old(h.world).entries && h.world == RemoveEntry(old(h.world), Path())
      ensures r == Ok ==> Path() !in h.world.entries
      // a removal that counts is on disk
      ensures h.unsynced.files == old(h.unsynced).files
      ensures if old(created) then Unlisted(old(h.unsynced), h.unsynced, old(dir.value), r == Ok)
              else h.unsynced == old(h.unsynced)
      ensures h.exclusive && h.sturdyLooks && old(InPlace(h.world)) ==> r == Ok
    {
      hide Step, Watch, ValidName, Host.Separate;
      if !created { return NoEffect; }
      var ours := LooksOurs(h);
      if !ours { return Ambiguous; }
      var removed, gone, sure := h.UnlinkPath(Path());
      if !removed { return Ambiguous; }
      StepUnlinked(old(h.mon), old(h.log), Path(), gone, sure);
      var synced := h.SyncFolder(dir.value);
      if !synced { return Ambiguous; }
      var after := h.StatPath(Path());
      if !after.NotFound? { return Ambiguous; }
      created := false;
      r := Ok;
    }

    method Close(h: Host)
      requires h.Valid() && Valid(h)
      modifies this, h`world, h`rest, h`still
      ensures h.Valid() && Valid(h)
      ensures dir.None? && fd.None? && inode == 0 && !created
      ensures h.world == if old(fd).Some? then Release(old(h.world), old(fd).value) else old(h.world)
    {
      if fd.Some? { h.CloseDescriptor(fd.value); }
      Reset();
    }
  }

  predicate Publishable(name: string, bytes: seq<Byte>, mode: nat) {
    ValidName(name) && 0 < |bytes| <= MAX_FILE_BYTES && mode <= 0x1ff
  }

  lemma WithFileFilled(w: World, k: Key, ino: nat, i: Inode, j: Inode)
    ensures WithInode(WithFile(w, k, ino, i), ino, j) == WithFile(w, k, ino, j)
  {
    assert w.inodes[ino := i][ino := j] == w.inodes[ino := j];
  }
}
