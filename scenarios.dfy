// The expectations of the single-level idmapped-mount tests, derived from the
// oracle.  Each lemma fixes the maps a test builds with get_userns_fd and the
// credentials it switches to, and states for every id the test could have
// used (not only the one it picks) what the kernel must answer.

module IdmappedScenarios {
  import opened IdMaps
  import opened Chains
  import opened Oracle
  import opened Filesystem

  /** Root of a user namespace, with the capabilities it holds there only. */
  function NsRoot(): Cred
  {
    Cred(0, 0, {}, {CapChown, CapFowner, CapFsetid, CapSetfcap}, {})
  }

  /** An unprivileged caller whose fsuid and fsgid are id. */
  function User(id: nat): Cred
  {
    Cred(id, id, {}, {}, {})
  }

  const Plain: Mode := Mode(false, false, false, false, false)

  // ---------------------------------------------------------------------
  // expected_uid_gid: two idmapped mounts of the same directory, one with
  // 0:10000:10000 and one with 0:30000:2001, and a caller in 0:10000:10000.

  function Mount1(): Chain { [GetUsernsFd(0, 10000, 10000)] }
  function Mount2(): Chain { [GetUsernsFd(0, 30000, 2001)] }
  function Userns1(): Chain { [GetUsernsFd(0, 10000, 10000)] }

  /** Seen from the initial namespace, each mount adds its host offset, and an id outside 0..2000 overflows on the second. */
  lemma ViewsFromInit(h: nat, ov: nat)
    ensures Display(View([], [], h), ov) == h
    ensures Display(View(Mount1(), [], h), ov) == if h < 10000 then h + 10000 else ov
    ensures Display(View(Mount2(), [], h), ov) == if h <= 2000 then h + 30000 else ov
  {
  }

  /**
   * Seen from inside the first namespace, an id stored below 10000 is the
   * overflow id through the plain path and through the second mount, and
   * itself through the first mount.
   */
  lemma ViewsFromUserns1(h: nat, ov: nat)
    requires h < 10000
    ensures Display(View([], Userns1(), h), ov) == ov
    ensures Display(View(Mount1(), Userns1(), h), ov) == h
    ensures Display(View(Mount2(), Userns1(), h), ov) == ov
  {
    assert ToInit(Mount2(), h) == (if h <= 2000 then Mapped(h + 30000) else Unmapped);
  }

  /**
   * Root of the first namespace changing the owner of a file stored below
   * 10000 to an id v below 10000: the plain path refuses (the file is not
   * mapped in its namespace), the second mount cannot store v (EOVERFLOW),
   * and the first mount stores v itself.
   */
  lemma ChownFromUserns1(inode: Inode, v: nat)
    requires inode.uid < 10000 && inode.gid < 10000 && v < 10000
    ensures Oracle.Chown([], Userns1(), NsRoot(), inode, v, v) == Fail(EPERM)
    ensures Oracle.Chown(Mount2(), Userns1(), NsRoot(), inode, v, v) == Fail(EOVERFLOW)
    ensures Oracle.Chown(Mount1(), Userns1(), NsRoot(), inode, v, v) == Ok(inode.(uid := v, gid := v))
  {
    assert ToInit(Userns1(), v) == Mapped(v + 10000);
    assert Store([], Userns1(), v) == Mapped(v + 10000);
    assert ToInit(Userns1(), 0) == Mapped(10000);
    assert !OwnedByCaller([], Userns1(), NsRoot(), inode.uid);
    assert View([], Userns1(), inode.uid).Unmapped?;
    assert Store(Mount1(), Userns1(), v) == Mapped(v);
    assert View(Mount1(), Userns1(), inode.uid).Mapped? && View(Mount1(), Userns1(), inode.gid).Mapped?;
    assert CapableOver(Mount1(), Userns1(), NsRoot(), inode, CapChown);
  }

  // ---------------------------------------------------------------------
  // fsids_unmapped and fsids_mapped: a mount 0:10000:10000 of a directory
  // whose entries are owned by 0, used by a caller in the initial namespace.

  /**
   * With fsids 0, which have no preimage through the mount, every call that
   * creates a name fails with EOVERFLOW while removing names still works.
   */
  method FsidsUnmapped() returns (link: Outcome<()>, renameFile: Outcome<()>, renameDir: Outcome<()>,
                                  unlinkFile: Outcome<()>, unlinkDir: Outcome<()>, create: Outcome<()>,
                                  mknod: Outcome<()>, chrdev: Outcome<()>, symlink: Outcome<()>,
                                  mkdir: Outcome<()>)
    ensures link == Fail(EOVERFLOW) && renameFile == Fail(EOVERFLOW) && renameDir == Fail(EOVERFLOW)
    ensures unlinkFile == Ok(()) && unlinkDir == Ok(())
    ensures create == Fail(EOVERFLOW) && mknod == Fail(EOVERFLOW) && chrdev == Fail(EOVERFLOW)
    ensures symlink == Fail(EOVERFLOW) && mkdir == Fail(EOVERFLOW)
  {
    var owned := Inode(0, 0, Plain);
    var d := new Directory(owned, map["file1" := owned, "dir1" := owned]);
    var m, cred := Mount1(), Cred(0, 0, {}, {CapChown, CapFowner, CapFsetid}, {CapChown, CapFowner, CapFsetid});
    assert Store(m, [], 0).Unmapped?;
    assert MayCreate(m, [], cred) == Fail(EOVERFLOW) && MayLink(m, [], cred, owned, true, false) == Fail(EOVERFLOW);
    assert MayDelete(m, [], cred, owned, owned) == Ok(());
    link := d.Link("file1", "hardlink1", m, [], cred, true, false);
    renameFile := d.Rename("file1", "file1_rename", m, [], cred);
    renameDir := d.Rename("dir1", "dir1_rename", m, [], cred);
    unlinkFile := d.Unlink("file1", m, [], cred);
    unlinkDir := d.Unlink("dir1", m, [], cred);
    create := d.Create("file1", m, [], cred, Regular, Plain, false);
    mknod := d.Create("file2", m, [], cred, Regular, Plain, false);
    chrdev := d.Create("chrdev1", m, [], cred, Regular, Plain, false);
    symlink := d.Create("symlink1", m, [], cred, Regular, Plain, false);
    mkdir := d.Create("dir1", m, [], cred, Directory, Plain, false);
  }

  /** The mount and the fsids of fsids_mapped: the caller's 10000 is stored as 0. */
  function MappedFsids(): Cred
  {
    Cred(10000, 10000, {}, {CapChown, CapFowner, CapFsetid}, {CapChown, CapFowner, CapFsetid})
  }

  /**
   * With fsids 10000, which the mount stores as 0, linking, renaming and
   * removing the names owned by 0 all succeed.
   */
  method FsidsMappedNames() returns (link: Outcome<()>, renameFile: Outcome<()>, renameDir: Outcome<()>,
                                     unlinkFile: Outcome<()>, unlinkDir: Outcome<()>)
    ensures link == Ok(()) && renameFile == Ok(()) && renameDir == Ok(())
    ensures unlinkFile == Ok(()) && unlinkDir == Ok(())
  {
    var owned := Inode(0, 0, Plain);
    var d := new Directory(owned, map["file1" := owned, "dir1" := owned]);
    var m, cred := Mount1(), MappedFsids();
    assert Store(m, [], 10000) == Mapped(0);
    assert ToInit(m, 0) == Mapped(10000);
    assert MayCreate(m, [], cred) == Ok(()) && MayLink(m, [], cred, owned, true, false) == Ok(());
    assert MayDelete(m, [], cred, owned, owned) == Ok(());
    link := d.Link("file1", "hardlink1", m, [], cred, true, false);
    renameFile := d.Rename("file1", "file1_rename", m, [], cred);
    renameDir := d.Rename("dir1", "dir1_rename", m, [], cred);
    unlinkFile := d.Unlink("file1_rename", m, [], cred);
    unlinkDir := d.Unlink("dir1_rename", m, [], cred);
  }

  /**
   * With the same fsids, creating files and directories succeeds, and a new
   * file is owned by 10000:10000 as seen through the mount.
   */
  method FsidsMappedCreate() returns (create: Outcome<()>, mknod: Outcome<()>, chrdev: Outcome<()>,
                                      symlink: Outcome<()>, mkdir: Outcome<()>, owner: StatIds)
    ensures create == Ok(()) && mknod == Ok(()) && chrdev == Ok(()) && symlink == Ok(()) && mkdir == Ok(())
    ensures owner == StatIds(10000, 10000)
  {
    var owned := Inode(0, 0, Plain);
    var d := new Directory(owned, map[]);
    var m, cred := Mount1(), MappedFsids();
    assert Store(m, [], 10000) == Mapped(0);
    assert ToInit(m, 0) == Mapped(10000);
    create := d.Create("file1", m, [], cred, Regular, Plain, false);
    mknod := d.Create("file2", m, [], cred, Regular, Plain, false);
    chrdev := d.Create("chrdev1", m, [], cred, Regular, Plain, false);
    symlink := d.Create("symlink1", m, [], cred, Regular, Plain, false);
    mkdir := d.Create("dir1", m, [], cred, Directory, Plain, false);
    owner := d.Stat("file1", m, [], DefaultOverflowId);
  }

  // ---------------------------------------------------------------------
  // hardlink_from_idmapped_mount: a mount 10000:0:10000 used by root.

  /** What root creates through the mount is stored as 10000 and read back through the mount as 0. */
  lemma RootCreatesThroughShiftedMount(dir: Inode, kind: Kind, mode: Mode)
    requires !dir.mode.setgid
    ensures var r := Oracle.Create([GetUsernsFd(10000, 0, 10000)], [], NsRoot(), dir, kind, mode, false);
            r.Ok? && r.value.uid == 10000 && r.value.gid == 10000 &&
            View([GetUsernsFd(10000, 0, 10000)], [], r.value.uid) == Mapped(0)
  {
    assert Store([GetUsernsFd(10000, 0, 10000)], [], 0) == Mapped(10000);
  }

  // ---------------------------------------------------------------------
  // fscaps: the rootid of a v3 file capability set through a mount.

  /**
   * Through a mount 0:10000:10000 used from the initial namespace, a rootid
   * below 10000 has no preimage and is refused; a rootid 10000 + k is stored
   * as k and read back as 10000 + k through the mount.  The file is owned
   * by 0:0, which the mount shows as 10000:10000; a caller without
   * CAP_SETFCAP is refused whatever the rootid.
   */
  lemma FscapsThroughMount(v: nat)
    ensures var file := Inode(0, 0, Plain);
            SetFscapRootid(Mount1(), [], NsRoot(), file, v) ==
              (if 10000 <= v < 20000 then Ok(v - 10000) else Fail(EINVAL)) &&
            SetFscapRootid(Mount1(), [], User(0), file, v) == Fail(EPERM)
    ensures 10000 <= v < 20000 ==> Display(View(Mount1(), [], v - 10000), DefaultOverflowId) == v
  {
  }

  /**
   * A caller in 0:10000:10000 setting the rootid through a mount
   * 20000:10000:10000: rootid k of the caller is kernel id 10000 + k and is
   * stored as 20000 + k.  The file, owned by 20000:20000, shows as 0:0 to
   * the caller, the root of its namespace.
   */
  lemma FscapsSeparateUserns(k: nat)
    requires k < 10000
    ensures SetFscapRootid([GetUsernsFd(20000, 10000, 10000)], Userns1(), NsRoot(), Inode(20000, 20000, Plain), k) ==
            Ok(20000 + k)
    ensures View([GetUsernsFd(20000, 10000, 10000)], Userns1(), 20000 + k) == Mapped(k)
  {
    assert ToInit(Userns1(), k) == Mapped(10000 + k);
    assert ToInit([GetUsernsFd(20000, 10000, 10000)], 20000 + k) == Mapped(10000 + k);
  }

  /**
   * Under protected_hardlinks, a caller in 0:10000:10000 holding CAP_FOWNER
   * may link a setuid file it does not own as soon as it can map the file's
   * uid: the file's gid 50000, which it cannot map, does not matter.
   */
  lemma LinkFownerNeedsOwnerUidOnly()
    ensures var file := Inode(10005, 50000, Mode(true, false, false, false, false));
            View([], Userns1(), file.gid).Unmapped? &&
            MayLink([], Userns1(), Cred(0, 0, {}, {CapFowner}, {}), file, true, true) == Ok(())
  {
    assert ToInit(Userns1(), 0) == Mapped(10000);
  }

  // ---------------------------------------------------------------------
  // acls: an ACL entry for a user written through the plain path, read
  // back through a mount 100010:100020:5 and from inside that namespace.

  function AclMount(): Chain { [GetUsernsFd(100010, 100020, 5)] }

  /**
   * From the initial namespace the entry reads as written through the plain
   * path and shifted by 10 through the mount; from inside the mount's
   * namespace it is unmapped ((uid_t)-1) through the plain path and reads as
   * written through the mount.
   */
  lemma AclEntries(u: nat)
    requires 100010 <= u < 100015
    ensures AclEntry([], [], u) == u
    ensures AclEntry(AclMount(), [], u) == u + 10
    ensures AclEntry([], AclMount(), u) == AclUnmappedId
    ensures AclEntry(AclMount(), AclMount(), u) == u
  {
    assert ToInit(AclMount(), u) == Mapped(u + 10);
    assert FromInit(AclMount(), u) == Unmapped;
    assert FromInit(AclMount(), u + 10) == Mapped(u);
  }

  // ---------------------------------------------------------------------
  // Sticky directories.

  function ShiftedMount(): Chain { [GetUsernsFd(10000, 0, 10000)] }

  /**
   * sticky_bit_unlink_idmapped_mounts: through a mount 10000:0:10000 a caller
   * 1000:1000 of the initial namespace without capabilities may remove a
   * file from a sticky directory exactly when the file or the directory is
   * stored as 11000 (that is, owned by 1000 as seen through the mount).
   */
  lemma StickyThroughShiftedMount(dir: Inode, file: Inode)
    requires 10000 <= dir.uid < 20000 && 10000 <= file.uid < 20000 && 10000 <= file.gid < 20000
    ensures MayDelete(ShiftedMount(), [], User(1000), dir.(mode := dir.mode.(sticky := false)), file) == Ok(())
    ensures MayDelete(ShiftedMount(), [], User(1000), dir.(mode := dir.mode.(sticky := true)), file) ==
              if file.uid == 11000 || dir.uid == 11000 then Ok(()) else Fail(EPERM)
  {
    var m := ShiftedMount();
    assert ToInit(m, file.uid) == Mapped(file.uid - 10000);
    assert ToInit(m, dir.uid) == Mapped(dir.uid - 10000);
    assert ToInit(m, file.gid).Mapped?;
  }

  /**
   * sticky_bit_unlink_idmapped_mounts_in_user_namespace: a caller 1000:1000
   * without capabilities in 0:10000:10000, in a sticky directory.  A file
   * stored as 1000, or a directory stored as 1000, belongs to the caller
   * through the mount 0:10000:10000 but not through the plain path.
   */
  lemma StickyInUserns(dir: Inode, file: Inode)
    requires dir.mode.sticky
    requires dir.uid < 10000 && file.uid < 10000 && file.gid < 10000
    ensures MayDelete([], Userns1(), User(1000), dir, file) == Fail(EPERM)
    ensures MayDelete(Mount1(), Userns1(), User(1000), dir, file) ==
              if file.uid == 1000 || dir.uid == 1000 then Ok(()) else Fail(EPERM)
    ensures MayDelete([], Userns1(), User(1000), dir.(mode := dir.mode.(sticky := false)), file) == Ok(())
  {
    assert ToInit(Userns1(), 1000) == Mapped(11000);
    assert ToInit(Mount1(), file.uid) == Mapped(file.uid + 10000);
    assert ToInit(Mount1(), dir.uid) == Mapped(dir.uid + 10000);
    assert ToInit(Mount1(), file.gid).Mapped?;
    assert View([], Userns1(), file.uid).Unmapped?;
  }

  // ---------------------------------------------------------------------
  // setgid_create_idmapped: a setgid directory stored 0:0 seen through
  // 0:10000:10000 by a caller 10000:11000 without capabilities.

  /**
   * The caller is not in the directory's group (10000 as seen through the
   * mount), so a file created with S_ISGID|S_IXGRP loses S_ISGID, a new
   * directory keeps it unless irix_sgid_inherit is on, and everything is
   * owned by 10000:10000 as seen through the mount.
   */
  lemma SetgidCreate(kind: Kind, irix: bool)
    ensures var dir := Inode(0, 0, Plain.(setgid := true));
            var r := Oracle.Create(Mount1(), [], Cred(10000, 11000, {}, {}, {}), dir, kind,
                                   Plain.(setgid := true, groupExec := true), irix);
            r.Ok? &&
            r.value.mode.setgid == (kind == Directory && !irix) &&
            View(Mount1(), [], r.value.uid) == Mapped(10000) &&
            View(Mount1(), [], r.value.gid) == Mapped(10000)
  {
    var cred := Cred(10000, 11000, {}, {}, {});
    assert Store(Mount1(), [], 10000) == Mapped(0);
    assert Store(Mount1(), [], 11000) == Mapped(1000);
    assert !InGroup(Mount1(), [], cred, 0);
  }

  // ---------------------------------------------------------------------
  // setid binaries executed through a mount 0:10000:10000.

  /**
   * A setuid binary stored as k < 10000 runs with euid 10000 + k from the
   * initial namespace and k from inside 0:10000:10000, and with the matching
   * egid when it is also setgid and group-executable; a binary stored
   * outside the range leaves the credentials alone.
   */
  lemma SetidThroughMount(file: Inode, ids: ExecIds)
    requires file.mode.setuid
    ensures file.uid < 10000 && file.gid < 10000 ==>
              SetidExec(Mount1(), [], ids, file).euid == file.uid + 10000 &&
              SetidExec(Mount1(), Userns1(), ids, file).euid == file.uid
    ensures file.uid < 10000 && file.gid < 10000 && file.mode.setgid && file.mode.groupExec ==>
              SetidExec(Mount1(), [], ids, file).egid == file.gid + 10000 &&
              SetidExec(Mount1(), Userns1(), ids, file).egid == file.gid
    ensures file.uid >= 10000 ==> SetidExec(Mount1(), Userns1(), ids, file) == ids
  {
    assert ToInit(Mount1(), file.uid) == (if file.uid < 10000 then Mapped(file.uid + 10000) else Unmapped);
    assert ToInit(Mount1(), file.gid) == (if file.gid < 10000 then Mapped(file.gid + 10000) else Unmapped);
  }

  // ---------------------------------------------------------------------
  // protected_symlinks through a mount 10000:0:10000: a sticky world-writable
  // directory stored 10000, a caller 1000 of the initial namespace.

  /**
   * For a caller c below 10000 (the test uses 1000 and 2000), a link stored
   * as 10000 (the directory's owner) or as 10000 + c (the caller as seen
   * through the mount) may be followed; any other owner is EACCES.
   */
  lemma ProtectedSymlinks(c: nat, link: Inode)
    requires c < 10000 && 10000 <= link.uid < 20000
    ensures FollowLink(ShiftedMount(), [], User(c), Inode(10000, 10000, Plain.(sticky := true, otherWrite := true)),
                       link, true) ==
            if link.uid == 10000 || link.uid == 10000 + c then Ok(()) else Fail(EACCES)
  {
    assert ToInit(ShiftedMount(), link.uid) == Mapped(link.uid - 10000);
    assert ToInit(ShiftedMount(), 10000) == Mapped(0);
  }

  // ---------------------------------------------------------------------
  // setattr_fix_968219708108: the circular map u1 <-> u2 on a mount.

  function Swap(u1: nat, u2: nat): Chain
  {
    [AddMapEntry(AddMapEntry([], u1, u2, 1), u2, u1, 1)]
  }

  /**
   * With the mount swapping u1 and u2, a caller u2 without capabilities in
   * the initial namespace owns the file stored as u1 (which it sees as u2)
   * and may chown it to itself, which leaves it alone; it may not give that
   * file away or touch the file stored as u2; and any other target id has no
   * preimage through the mount.
   */
  lemma CircularMapping(u1: nat, u2: nat, v: nat)
    requires u1 != u2
    requires v != u1 && v != u2
    ensures var f1, f2 := Inode(u1, u1, Plain), Inode(u2, u2, Plain);
            View(Swap(u1, u2), [], u1) == Mapped(u2) && View(Swap(u1, u2), [], u2) == Mapped(u1) &&
            Oracle.Chown(Swap(u1, u2), [], User(u2), f1, u2, u2) == Ok(f1) &&
            Oracle.Chown(Swap(u1, u2), [], User(u2), f1, u1, u1) == Fail(EPERM) &&
            Oracle.Chown(Swap(u1, u2), [], User(u2), f2, u1, u1) == Fail(EPERM) &&
            Oracle.Chown(Swap(u1, u2), [], User(u2), f2, u2, u2) == Fail(EPERM) &&
            Oracle.Chown(Swap(u1, u2), [], User(u2), f1, v, v) == Fail(EOVERFLOW)
  {
    SwapLookups(u1, u2, v);
  }

  /** The swapping mount sends u1 and u2 to each other in both directions and nothing else to them. */
  lemma SwapLookups(u1: nat, u2: nat, v: nat)
    requires u1 != u2
    requires v != u1 && v != u2
    ensures ToInit(Swap(u1, u2), u1) == Mapped(u2) && ToInit(Swap(u1, u2), u2) == Mapped(u1)
    ensures FromInit(Swap(u1, u2), u1) == Mapped(u2) && FromInit(Swap(u1, u2), u2) == Mapped(u1)
    ensures FromInit(Swap(u1, u2), v) == Unmapped
  {
    var m := AddMapEntry(AddMapEntry([], u1, u2, 1), u2, u1, 1);
    assert m == [Extent(u2, u1, 1), Extent(u1, u2, 1)];
    assert m[1..] == [Extent(u1, u2, 1)];
    assert m[1..][1..] == [];
    assert Forward(m, u1) == Mapped(u2) && Forward(m, u2) == Mapped(u1);
    assert Inverse(m, u1) == Mapped(u2) && Inverse(m, u2) == Mapped(u1) && Inverse(m, v) == Unmapped;
  }
}
