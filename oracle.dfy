// The ownership and permission oracle for idmapped mounts.
//
// Inodes store kernel ids (ids of the initial namespace).  A mount either is
// plain (the empty chain) or carries the map of a user namespace.  Reading
// an owner through a mount maps the stored id down through the mount's map
// and then up into the caller's namespace; writing an id goes the opposite
// way.  The kernel compares ids in its own frame (vfsuid against the kuid of
// the caller); the lemmas below restate each rule in the caller's frame, the
// frame in which the expected values of the idmapped-mount tests are written.

module Oracle {
  import opened IdMaps
  import opened Chains

  /** /proc/sys/kernel/overflowuid and overflowgid unless changed. */
  const DefaultOverflowId: nat := 65534

  /** getfacl reports an entry whose id has no mapping as (uid_t)-1. */
  const AclUnmappedId: nat := 4294967295

  datatype Errno = EPERM | EACCES | EINVAL | EOVERFLOW | ENOENT | EEXIST

  datatype Outcome<T> = Ok(value: T) | Fail(err: Errno)

  datatype Option<T> = Some(value: T) | None

  /** A stored id as the caller sees it through the mount. */
  function View(mount: Chain, caller: Chain, h: nat): (r: Lookup)
    ensures ToInit(mount, h).Unmapped? ==> r == Unmapped
  {
    Down(caller, ToInit(mount, h))
  }

  /** The stored id that an id of the caller becomes when written through the mount. */
  function Store(mount: Chain, caller: Chain, v: nat): (r: Lookup)
    ensures ToInit(caller, v).Unmapped? ==> r == Unmapped
  {
    Down(mount, ToInit(caller, v))
  }

  /** stat() and friends: an id without a mapping is shown as the overflow id. */
  function Display(l: Lookup, overflow: nat): nat
  {
    match l
    case Mapped(v) => v
    case Unmapped => overflow
  }

  /** A stored id as stat() through the mount reports it: its view, or the overflow id when it has none. */
  function StatId(mount: Chain, caller: Chain, h: nat, overflow: nat): (id: nat)
    ensures View(mount, caller, h) == Mapped(id) || (View(mount, caller, h).Unmapped? && id == overflow)
  {
    Display(View(mount, caller, h), overflow)
  }

  /** An ACL entry as getfacl prints it: its view, or (uid_t)-1 when it has none. */
  function AclEntry(mount: Chain, caller: Chain, h: nat): (id: nat)
    ensures View(mount, caller, h) == Mapped(id) || (View(mount, caller, h).Unmapped? && id == AclUnmappedId)
  {
    Display(View(mount, caller, h), AclUnmappedId)
  }

  /**
   * For a valid stored id, the ACL entry carries (uid_t)-1 exactly when the
   * caller cannot map it: no mapped id is ever the invalid one.
   */
  lemma AclEntryUnmapped(mount: Chain, caller: Chain, h: nat)
    requires Wf(mount, caller) && h < IdLimit
    ensures AclEntry(mount, caller, h) == AclUnmappedId <==> View(mount, caller, h).Unmapped?
  {
    ChainBelowLimit(mount, h);
    if ToInit(mount, h).Mapped? {
      ChainBelowLimit(caller, ToInit(mount, h).id);
    }
  }

  predicate Wf(mount: Chain, caller: Chain)
  {
    ChainWellFormed(mount) && ChainWellFormed(caller)
  }

  /** Writing v stores h exactly when reading h back through the same mount in the same namespace shows v. */
  lemma StoreViewRoundTrip(mount: Chain, caller: Chain, v: nat, h: nat)
    requires Wf(mount, caller)
    ensures Store(mount, caller, v) == Mapped(h) <==> View(mount, caller, h) == Mapped(v)
  {
    if Store(mount, caller, v) == Mapped(h) {
      var k := ToInit(caller, v).id;
      ChainRoundTrip(mount, h, k);
      ChainRoundTrip(caller, v, k);
    }
    if View(mount, caller, h) == Mapped(v) {
      var k := ToInit(mount, h).id;
      ChainRoundTrip(mount, h, k);
      ChainRoundTrip(caller, v, k);
    }
  }

  /** Two stored ids that the caller sees as the same id are the same id. */
  lemma ViewInjective(mount: Chain, caller: Chain, h1: nat, h2: nat)
    requires Wf(mount, caller)
    requires View(mount, caller, h1).Mapped? && View(mount, caller, h1) == View(mount, caller, h2)
    ensures h1 == h2
  {
    var v := View(mount, caller, h1).id;
    StoreViewRoundTrip(mount, caller, v, h1);
    StoreViewRoundTrip(mount, caller, v, h2);
  }

  // ---------------------------------------------------------------------
  // Credentials and inodes

  datatype Cap = CapChown | CapFowner | CapFsetid | CapSetfcap

  /**
   * Filesystem credentials, in the caller's own namespace.  `caps` are the
   * capabilities held in that namespace, `sbCaps` those held over the
   * namespace that owns the filesystem (the initial one).
   */
  datatype Cred = Cred(fsuid: nat, fsgid: nat, groups: set<nat>, caps: set<Cap>, sbCaps: set<Cap>)

  /** A process's own ids always have kernel ids. */
  predicate CredValid(caller: Chain, cred: Cred)
  {
    ToInit(caller, cred.fsuid).Mapped? && ToInit(caller, cred.fsgid).Mapped?
  }

  /** The mode bits the rules look at. */
  datatype Mode = Mode(setuid: bool, setgid: bool, groupExec: bool, sticky: bool, otherWrite: bool)

  /** An inode: stored (kernel) owner ids and mode. */
  datatype Inode = Inode(uid: nat, gid: nat, mode: Mode)

  datatype Kind = Regular | Directory

  /** vfsuid_eq_kuid(i_uid_into_vfsuid(idmap, inode), current_fsuid()) */
  predicate OwnedByCaller(mount: Chain, caller: Chain, cred: Cred, uid: nat)
  {
    ToInit(mount, uid).Mapped? && ToInit(mount, uid) == ToInit(caller, cred.fsuid)
  }

  /** vfsgid_in_group_p(i_gid_into_vfsgid(idmap, inode)) */
  predicate InGroup(mount: Chain, caller: Chain, cred: Cred, gid: nat)
  {
    var k := ToInit(mount, gid);
    k.Mapped? && (k == ToInit(caller, cred.fsgid) || exists g :: g in cred.groups && ToInit(caller, g) == k)
  }

  /** privileged_wrt_inode_uidgid: both owner ids have a mapping in the caller's namespace. */
  predicate OwnersMapped(mount: Chain, caller: Chain, inode: Inode)
  {
    View(mount, caller, inode.uid).Mapped? && View(mount, caller, inode.gid).Mapped?
  }

  /** capable_wrt_inode_uidgid(idmap, inode, cap) */
  predicate CapableOver(mount: Chain, caller: Chain, cred: Cred, inode: Inode, cap: Cap)
  {
    cap in cred.caps && OwnersMapped(mount, caller, inode)
  }

  /** The kernel-frame owner test, read in the caller's frame. */
  lemma OwnedByCallerView(mount: Chain, caller: Chain, cred: Cred, uid: nat)
    requires Wf(mount, caller) && CredValid(caller, cred)
    ensures OwnedByCaller(mount, caller, cred, uid) <==> View(mount, caller, uid) == Mapped(cred.fsuid)
  {
    var k := ToInit(caller, cred.fsuid).id;
    ChainRoundTrip(caller, cred.fsuid, k);
    if ToInit(mount, uid).Mapped? {
      ChainRoundTrip(caller, cred.fsuid, ToInit(mount, uid).id);
    }
  }

  /** The kernel-frame group test, read in the caller's frame. */
  lemma InGroupView(mount: Chain, caller: Chain, cred: Cred, gid: nat)
    requires Wf(mount, caller) && CredValid(caller, cred)
    ensures InGroup(mount, caller, cred, gid) <==>
            View(mount, caller, gid) == Mapped(cred.fsgid) ||
            (View(mount, caller, gid).Mapped? && View(mount, caller, gid).id in cred.groups)
  {
    var k := ToInit(mount, gid);
    ChainRoundTrip(caller, cred.fsgid, ToInit(caller, cred.fsgid).id);
    if k.Mapped? {
      ChainRoundTrip(caller, cred.fsgid, k.id);
      if exists g :: g in cred.groups && ToInit(caller, g) == k {
        var g :| g in cred.groups && ToInit(caller, g) == k;
        ChainRoundTrip(caller, g, k.id);
      }
      if View(mount, caller, gid).Mapped? {
        var g := View(mount, caller, gid).id;
        ChainRoundTrip(caller, g, k.id);
      }
    }
  }

  // ---------------------------------------------------------------------
  // chown (chown_common, notify_change, chown_ok, chgrp_ok)

  /** chown_ok: the owner keeping its uid, a capable caller, or the filesystem owner over an unmapped inode. */
  predicate ChownOk(mount: Chain, caller: Chain, cred: Cred, inode: Inode, uid: nat)
  {
    (OwnedByCaller(mount, caller, cred, inode.uid) && ToInit(caller, uid) == ToInit(mount, inode.uid)) ||
    CapableOver(mount, caller, cred, inode, CapChown) ||
    (ToInit(mount, inode.uid).Unmapped? && CapChown in cred.sbCaps)
  }

  /** chgrp_ok: the owner moving to the same group or to one of its groups, or a capable caller. */
  predicate ChgrpOk(mount: Chain, caller: Chain, cred: Cred, inode: Inode, gid: nat)
  {
    (OwnedByCaller(mount, caller, cred, inode.uid) &&
     (ToInit(caller, gid) == ToInit(mount, inode.gid) ||
      ToInit(caller, gid) == ToInit(caller, cred.fsgid) ||
      exists g :: g in cred.groups && ToInit(caller, g) == ToInit(caller, gid))) ||
    CapableOver(mount, caller, cred, inode, CapChown) ||
    (ToInit(mount, inode.gid).Unmapped? && CapChown in cred.sbCaps)
  }

  /**
   * fchownat(uid, gid) through a mount.  An id without a kernel id fails with
   * EINVAL, one without a mapping through the mount with EOVERFLOW, a caller
   * without the right with EPERM; otherwise the inode gets the stored ids.
   */
  function Chown(mount: Chain, caller: Chain, cred: Cred, inode: Inode, uid: nat, gid: nat): (r: Outcome<Inode>)
    ensures r.Fail? ==> r.err in {EINVAL, EOVERFLOW, EPERM}
    ensures r.Ok? ==> r.value.mode == inode.mode
  {
    if ToInit(caller, uid).Unmapped? || ToInit(caller, gid).Unmapped? then Fail(EINVAL)
    else if Store(mount, caller, uid).Unmapped? || Store(mount, caller, gid).Unmapped? then Fail(EOVERFLOW)
    else if ChownOk(mount, caller, cred, inode, uid) && ChgrpOk(mount, caller, cred, inode, gid) then
      Ok(inode.(uid := Store(mount, caller, uid).id, gid := Store(mount, caller, gid).id))
    else Fail(EPERM)
  }

  /**
   * A successful chown reads back, through the same mount in the same
   * namespace, as the ids that were asked for, whoever the caller is, and
   * leaves the mode alone.
   */
  lemma ChownReadsBack(mount: Chain, caller: Chain, cred: Cred, inode: Inode, uid: nat, gid: nat)
    requires Wf(mount, caller)
    requires Chown(mount, caller, cred, inode, uid, gid).Ok?
    ensures var n := Chown(mount, caller, cred, inode, uid, gid).value;
            View(mount, caller, n.uid) == Mapped(uid) && View(mount, caller, n.gid) == Mapped(gid) &&
            n.mode == inode.mode
  {
    var n := Chown(mount, caller, cred, inode, uid, gid).value;
    StoreViewRoundTrip(mount, caller, uid, n.uid);
    StoreViewRoundTrip(mount, caller, gid, n.gid);
  }

  /**
   * Without CAP_CHOWN over the filesystem's namespace, a successful chown
   * was of a file whose owner the caller could see, and a caller without
   * CAP_CHOWN in its own namespace cannot give the file away.
   */
  lemma ChownNoGiveAway(mount: Chain, caller: Chain, cred: Cred, inode: Inode, uid: nat, gid: nat)
    requires Wf(mount, caller) && CredValid(caller, cred)
    requires CapChown !in cred.sbCaps
    requires Chown(mount, caller, cred, inode, uid, gid).Ok?
    ensures View(mount, caller, inode.uid).Mapped?
    ensures CapChown !in cred.caps ==> Chown(mount, caller, cred, inode, uid, gid).value.uid == inode.uid
  {
    var n := Chown(mount, caller, cred, inode, uid, gid).value;
    OwnedByCallerView(mount, caller, cred, inode.uid);
    if CapChown !in cred.caps {
      ChainRoundTrip(mount, inode.uid, ToInit(caller, uid).id);
      ChainRoundTrip(mount, n.uid, ToInit(caller, uid).id);
      ForwardChainInjective(mount, inode.uid, n.uid);
    }
  }

  /** Stored ids with the same kernel id through a well-formed mount are equal. */
  lemma ForwardChainInjective(mount: Chain, h1: nat, h2: nat)
    requires ChainWellFormed(mount)
    requires ToInit(mount, h1).Mapped? && ToInit(mount, h1) == ToInit(mount, h2)
    ensures h1 == h2
  {
    var k := ToInit(mount, h1).id;
    ChainRoundTrip(mount, h1, k);
    ChainRoundTrip(mount, h2, k);
  }

  /** chown to an id that has no stored preimage fails, whoever asks. */
  lemma ChownUnmappableFails(mount: Chain, caller: Chain, cred: Cred, inode: Inode, uid: nat, gid: nat)
    requires Store(mount, caller, uid).Unmapped? || Store(mount, caller, gid).Unmapped?
    ensures Chown(mount, caller, cred, inode, uid, gid).Fail?
    ensures Chown(mount, caller, cred, inode, uid, gid).err in {EINVAL, EOVERFLOW}
  {
  }

  /** The owner may always "chown" a file to its current ids, as it sees them. */
  lemma ChownToSelfAllowed(mount: Chain, caller: Chain, cred: Cred, inode: Inode)
    requires Wf(mount, caller) && CredValid(caller, cred)
    requires View(mount, caller, inode.uid) == Mapped(cred.fsuid)
    requires View(mount, caller, inode.gid).Mapped?
    ensures Chown(mount, caller, cred, inode, cred.fsuid, View(mount, caller, inode.gid).id) == Ok(inode)
  {
    var g := View(mount, caller, inode.gid).id;
    OwnedByCallerView(mount, caller, cred, inode.uid);
    StoreViewRoundTrip(mount, caller, cred.fsuid, inode.uid);
    StoreViewRoundTrip(mount, caller, g, inode.gid);
    ChainRoundTrip(caller, g, ToInit(mount, inode.gid).id);
    assert ToInit(caller, g) == ToInit(mount, inode.gid);
    assert ChownOk(mount, caller, cred, inode, cred.fsuid);
    assert ChgrpOk(mount, caller, cred, inode, g);
    assert inode.(uid := inode.uid, gid := inode.gid) == inode;
  }

  // ---------------------------------------------------------------------
  // Deleting and renaming in a directory (may_delete, check_sticky)

  /** check_sticky: the sticky bit restricts the caller. */
  predicate StickyRestricts(mount: Chain, caller: Chain, cred: Cred, dir: Inode, inode: Inode)
  {
    dir.mode.sticky &&
    !OwnedByCaller(mount, caller, cred, inode.uid) &&
    !OwnedByCaller(mount, caller, cred, dir.uid) &&
    !CapableOver(mount, caller, cred, inode, CapFowner)
  }

  /**
   * may_delete, as used by unlink, rmdir and both ends of rename: a victim
   * whose owners have no mapping through the mount is refused with EOVERFLOW
   * before any permission check; one the sticky bit protects from the caller
   * with EPERM.
   */
  function MayDelete(mount: Chain, caller: Chain, cred: Cred, dir: Inode, inode: Inode): (r: Outcome<()>)
    ensures r.Fail? ==> r.err in {EOVERFLOW, EPERM}
  {
    if ToInit(mount, inode.uid).Unmapped? || ToInit(mount, inode.gid).Unmapped? then Fail(EOVERFLOW)
    else if StickyRestricts(mount, caller, cred, dir, inode) then Fail(EPERM)
    else Ok(())
  }

  /**
   * The sticky-bit rule in the caller's frame: in a sticky directory only the
   * file's owner, the directory's owner (both as seen through the path used)
   * or a caller with CAP_FOWNER over the file may remove it.
   */
  lemma StickyRuleView(mount: Chain, caller: Chain, cred: Cred, dir: Inode, inode: Inode)
    requires Wf(mount, caller) && CredValid(caller, cred)
    requires ToInit(mount, inode.uid).Mapped? && ToInit(mount, inode.gid).Mapped?
    ensures MayDelete(mount, caller, cred, dir, inode).Ok? <==>
            !dir.mode.sticky ||
            View(mount, caller, inode.uid) == Mapped(cred.fsuid) ||
            View(mount, caller, dir.uid) == Mapped(cred.fsuid) ||
            (CapFowner in cred.caps && OwnersMapped(mount, caller, inode))
  {
    OwnedByCallerView(mount, caller, cred, inode.uid);
    OwnedByCallerView(mount, caller, cred, dir.uid);
  }

  /**
   * may_delete in the caller's frame: the victim's owners exist as ids of
   * the mount, and, in a sticky directory, the caller sees itself as the
   * victim's or the directory's owner or holds CAP_FOWNER over a victim whose
   * owners it can map.
   */
  ghost predicate RemovableView(mount: Chain, caller: Chain, cred: Cred, dir: Inode, inode: Inode)
  {
    ToInit(mount, inode.uid).Mapped? && ToInit(mount, inode.gid).Mapped? &&
    (!dir.mode.sticky ||
     View(mount, caller, inode.uid) == Mapped(cred.fsuid) ||
     View(mount, caller, dir.uid) == Mapped(cred.fsuid) ||
     (CapFowner in cred.caps && OwnersMapped(mount, caller, inode)))
  }

  /** may_delete allows exactly the removals RemovableView describes; an unmapped victim is EOVERFLOW, anything else EPERM. */
  lemma MayDeleteView(mount: Chain, caller: Chain, cred: Cred, dir: Inode, inode: Inode)
    requires Wf(mount, caller) && CredValid(caller, cred)
    ensures MayDelete(mount, caller, cred, dir, inode).Ok? <==> RemovableView(mount, caller, cred, dir, inode)
    ensures MayDelete(mount, caller, cred, dir, inode) == Fail(EOVERFLOW) <==>
            ToInit(mount, inode.uid).Unmapped? || ToInit(mount, inode.gid).Unmapped?
  {
    if ToInit(mount, inode.uid).Mapped? && ToInit(mount, inode.gid).Mapped? {
      StickyRuleView(mount, caller, cred, dir, inode);
    }
  }

  // ---------------------------------------------------------------------
  // Creating inodes (may_create, inode_init_owner, mode_strip_sgid)

  /**
   * may_create (fsuidgid_has_mapping): creating a name through the mount needs
   * the caller's fsuid and fsgid to have stored preimages.
   */
  function MayCreate(mount: Chain, caller: Chain, cred: Cred): (r: Outcome<()>)
    ensures r.Fail? ==> r.err == EOVERFLOW
  {
    if Store(mount, caller, cred.fsuid).Unmapped? || Store(mount, caller, cred.fsgid).Unmapped? then Fail(EOVERFLOW)
    else Ok(())
  }

  /**
   * safe_hardlink_source: not setuid, not setgid and group-executable, and
   * readable and writable by the caller (`readWrite`, the outcome of
   * inode_permission(MAY_READ | MAY_WRITE)).
   */
  predicate SafeHardlinkSource(inode: Inode, readWrite: bool)
  {
    !inode.mode.setuid && !(inode.mode.setgid && inode.mode.groupExec) && readWrite
  }

  /**
   * linkat: may_linkat refuses an inode whose owners have no mapping through
   * the mount (EOVERFLOW) and, under protected_hardlinks, an unsafe source
   * that the caller neither owns nor holds CAP_FOWNER over with the owning
   * uid mapped in its namespace (EPERM); then
   * vfs_link needs may_create.  vfs_link's own test for unmapped owners can
   * no longer fail once may_linkat has passed.
   */
  function MayLink(mount: Chain, caller: Chain, cred: Cred, inode: Inode,
                   protectedHardlinks: bool, readWrite: bool): (r: Outcome<()>)
    ensures r.Fail? ==> r.err in {EOVERFLOW, EPERM}
  {
    if ToInit(mount, inode.uid).Unmapped? || ToInit(mount, inode.gid).Unmapped? then Fail(EOVERFLOW)
    else if protectedHardlinks && !SafeHardlinkSource(inode, readWrite) &&
            !OwnedByCaller(mount, caller, cred, inode.uid) &&
            !(CapFowner in cred.caps && View(mount, caller, inode.uid).Mapped?)
    then Fail(EPERM)
    else if MayCreate(mount, caller, cred).Fail? then Fail(EOVERFLOW)
    else Ok(())
  }

  /**
   * vfs_rename within one directory: the source must pass may_delete; an
   * existing target must pass may_delete too, a new name may_create.
   */
  function MayRename(mount: Chain, caller: Chain, cred: Cred, dir: Inode, src: Inode, dst: Option<Inode>): (r: Outcome<()>)
    ensures r.Fail? ==> r.err in {EOVERFLOW, EPERM}
  {
    match MayDelete(mount, caller, cred, dir, src)
    case Fail(e) => Fail(e)
    case Ok(_) =>
      match dst
      case Some(t) => MayDelete(mount, caller, cred, dir, t)
      case None => MayCreate(mount, caller, cred)
  }

  /** A caller may create a name through the mount exactly when some stored id shows as its fsuid and some as its fsgid. */
  lemma MayCreateView(mount: Chain, caller: Chain, cred: Cred)
    requires Wf(mount, caller)
    ensures MayCreate(mount, caller, cred).Ok? <==>
            (exists h :: View(mount, caller, h) == Mapped(cred.fsuid)) &&
            (exists h :: View(mount, caller, h) == Mapped(cred.fsgid))
  {
    var su, sg := Store(mount, caller, cred.fsuid), Store(mount, caller, cred.fsgid);
    if su.Mapped? {
      StoreViewRoundTrip(mount, caller, cred.fsuid, su.id);
    }
    if sg.Mapped? {
      StoreViewRoundTrip(mount, caller, cred.fsgid, sg.id);
    }
    if exists h :: View(mount, caller, h) == Mapped(cred.fsuid) {
      var h :| View(mount, caller, h) == Mapped(cred.fsuid);
      StoreViewRoundTrip(mount, caller, cred.fsuid, h);
    }
    if exists h :: View(mount, caller, h) == Mapped(cred.fsgid) {
      var h :| View(mount, caller, h) == Mapped(cred.fsgid);
      StoreViewRoundTrip(mount, caller, cred.fsgid, h);
    }
  }

  /**
   * may_linkat in the caller's frame: the inode's owners exist as ids of the
   * mount, and under protected_hardlinks the source is safe, or the caller
   * sees itself as its owner, or holds CAP_FOWNER and can map the owning
   * uid (inode_owner_or_capable does not look at the gid).
   */
  ghost predicate LinkableView(mount: Chain, caller: Chain, cred: Cred, inode: Inode,
                               protectedHardlinks: bool, readWrite: bool)
  {
    ToInit(mount, inode.uid).Mapped? && ToInit(mount, inode.gid).Mapped? &&
    (!protectedHardlinks || SafeHardlinkSource(inode, readWrite) ||
     View(mount, caller, inode.uid) == Mapped(cred.fsuid) ||
     (CapFowner in cred.caps && View(mount, caller, inode.uid).Mapped?))
  }

  /**
   * linkat's outcome: allowed exactly when may_linkat passes in the caller's
   * frame and the caller's fsids show through the mount; EPERM exactly when
   * the owners exist as ids of the mount but the protected_hardlinks rule
   * refuses; EOVERFLOW in every other case.
   */
  lemma MayLinkView(mount: Chain, caller: Chain, cred: Cred, inode: Inode, protectedHardlinks: bool, readWrite: bool)
    requires Wf(mount, caller) && CredValid(caller, cred)
    ensures MayLink(mount, caller, cred, inode, protectedHardlinks, readWrite).Ok? <==>
            LinkableView(mount, caller, cred, inode, protectedHardlinks, readWrite) &&
            (exists h :: View(mount, caller, h) == Mapped(cred.fsuid)) &&
            (exists h :: View(mount, caller, h) == Mapped(cred.fsgid))
    ensures MayLink(mount, caller, cred, inode, protectedHardlinks, readWrite) == Fail(EPERM) <==>
            ToInit(mount, inode.uid).Mapped? && ToInit(mount, inode.gid).Mapped? &&
            !LinkableView(mount, caller, cred, inode, protectedHardlinks, readWrite)
    ensures MayLink(mount, caller, cred, inode, protectedHardlinks, readWrite) == Fail(EOVERFLOW) <==>
            ToInit(mount, inode.uid).Unmapped? || ToInit(mount, inode.gid).Unmapped? ||
            (LinkableView(mount, caller, cred, inode, protectedHardlinks, readWrite) &&
             MayCreate(mount, caller, cred).Fail?)
  {
    MayCreateView(mount, caller, cred);
    OwnedByCallerView(mount, caller, cred, inode.uid);
  }

  /**
   * A rename within one directory is allowed exactly when the source may be
   * removed and the target, if it exists, may be removed too, or otherwise
   * may be created; a source that may not be removed decides the error.
   */
  lemma MayRenameView(mount: Chain, caller: Chain, cred: Cred, dir: Inode, src: Inode, dst: Option<Inode>)
    requires Wf(mount, caller) && CredValid(caller, cred)
    ensures MayRename(mount, caller, cred, dir, src, dst).Ok? <==>
            RemovableView(mount, caller, cred, dir, src) &&
            (match dst
             case Some(t) => RemovableView(mount, caller, cred, dir, t)
             case None =>
               (exists h :: View(mount, caller, h) == Mapped(cred.fsuid)) &&
               (exists h :: View(mount, caller, h) == Mapped(cred.fsgid)))
    ensures !RemovableView(mount, caller, cred, dir, src) ==>
            MayRename(mount, caller, cred, dir, src, dst) == MayDelete(mount, caller, cred, dir, src)
  {
    MayDeleteView(mount, caller, cred, dir, src);
    match dst
    case Some(t) => MayDeleteView(mount, caller, cred, dir, t);
    case None => MayCreateView(mount, caller, cred);
  }

  /**
   * A new inode created through the mount in `dir`.  The caller's fsuid and
   * fsgid must have a mapping through the mount (EOVERFLOW otherwise).  In a
   * setgid directory the inode takes the directory's gid; a directory keeps
   * S_ISGID, and a non-directory keeps a requested S_ISGID|S_IXGRP only if
   * the caller is in the directory's group or has CAP_FSETID over it
   * (mode_strip_sgid).  xfs's irix_sgid_inherit then strips S_ISGID from any
   * new inode whose group the caller is not in; outside a setgid directory
   * the group is the caller's own, so it never applies there.  mkdir never
   * takes S_ISGID from the requested mode.
   */
  function Create(mount: Chain, caller: Chain, cred: Cred, dir: Inode, kind: Kind, mode: Mode,
                  irixSgidInherit: bool): (r: Outcome<Inode>)
    ensures r.Fail? ==> r.err == EOVERFLOW
    ensures r.Ok? ==> (r.value.mode.setuid ==> kind == Regular)
  {
    var su := Store(mount, caller, cred.fsuid);
    var sg := Store(mount, caller, cred.fsgid);
    if MayCreate(mount, caller, cred).Fail? then Fail(EOVERFLOW)
    else
      var mode' := mode.(setuid := kind == Regular && mode.setuid);
      if dir.mode.setgid then
        var inGroup := InGroup(mount, caller, cred, dir.gid);
        var initKeeps := kind == Directory || !mode.groupExec || inGroup ||
                         CapableOver(mount, caller, cred, dir, CapFsetid);
        var setgid := (kind == Directory || mode.setgid) && initKeeps && (!irixSgidInherit || inGroup);
        Ok(Inode(su.id, dir.gid, mode'.(setgid := setgid)))
      else
        Ok(Inode(su.id, sg.id, mode'.(setgid := kind == Regular && mode.setgid)))
  }

  /**
   * What the creator sees of a new inode: it owns it; in a setgid directory
   * the group is the directory's, never the creator's; and S_ISGID follows
   * the group-membership rule, read in the caller's frame.
   */
  lemma CreateView(mount: Chain, caller: Chain, cred: Cred, dir: Inode, kind: Kind, mode: Mode, irix: bool)
    requires Wf(mount, caller) && CredValid(caller, cred)
    ensures Create(mount, caller, cred, dir, kind, mode, irix).Fail? <==>
            Store(mount, caller, cred.fsuid).Unmapped? || Store(mount, caller, cred.fsgid).Unmapped?
    ensures Create(mount, caller, cred, dir, kind, mode, irix).Ok? ==>
            var n := Create(mount, caller, cred, dir, kind, mode, irix).value;
            var inGroup := View(mount, caller, dir.gid) == Mapped(cred.fsgid) ||
                           (View(mount, caller, dir.gid).Mapped? && View(mount, caller, dir.gid).id in cred.groups);
            View(mount, caller, n.uid) == Mapped(cred.fsuid) &&
            (dir.mode.setgid ==> n.gid == dir.gid && View(mount, caller, n.gid) == View(mount, caller, dir.gid)) &&
            (!dir.mode.setgid ==> View(mount, caller, n.gid) == Mapped(cred.fsgid)) &&
            (dir.mode.setgid && kind == Directory ==> (n.mode.setgid <==> !irix || inGroup)) &&
            (dir.mode.setgid && kind == Regular && mode.setgid ==>
               (n.mode.setgid <==>
                  (!mode.groupExec || inGroup || CapableOver(mount, caller, cred, dir, CapFsetid)) &&
                  (!irix || inGroup))) &&
            (!dir.mode.setgid ==> n.mode.setgid == (kind == Regular && mode.setgid))
  {
    var r := Create(mount, caller, cred, dir, kind, mode, irix);
    if r.Ok? {
      StoreViewRoundTrip(mount, caller, cred.fsuid, r.value.uid);
      StoreViewRoundTrip(mount, caller, cred.fsgid, Store(mount, caller, cred.fsgid).id);
      InGroupView(mount, caller, cred, dir.gid);
    }
  }

  // ---------------------------------------------------------------------
  // Executing a setuid/setgid binary (bprm_fill_uid)

  datatype ExecIds = ExecIds(euid: nat, egid: nat)

  /**
   * The effective ids after exec, in the caller's namespace.  If either
   * owner id of the binary has no mapping in the caller's namespace nothing
   * changes; otherwise S_ISUID takes the owner as seen by the caller, and
   * S_ISGID together with S_IXGRP the group.
   */
  function SetidExec(mount: Chain, caller: Chain, ids: ExecIds, file: Inode): (r: ExecIds)
    ensures !file.mode.setgid ==> r.egid == ids.egid
    ensures !file.mode.setuid ==> r.euid == ids.euid
  {
    var vu := View(mount, caller, file.uid);
    var vg := View(mount, caller, file.gid);
    if vu.Unmapped? || vg.Unmapped? then ids
    else ExecIds(if file.mode.setuid then vu.id else ids.euid,
                 if file.mode.setgid && file.mode.groupExec then vg.id else ids.egid)
  }

  /**
   * After exec of a setuid binary the caller's new euid is, in the kernel's
   * frame, exactly the owner of the binary seen through the mount; a binary
   * the caller cannot map leaves the credentials alone.
   */
  lemma SetidExecKernelFrame(mount: Chain, caller: Chain, ids: ExecIds, file: Inode)
    requires Wf(mount, caller)
    ensures var r := SetidExec(mount, caller, ids, file);
            (OwnersMapped(mount, caller, file) && file.mode.setuid ==>
               ToInit(caller, r.euid) == ToInit(mount, file.uid) && Store(mount, caller, r.euid) == Mapped(file.uid)) &&
            (OwnersMapped(mount, caller, file) && file.mode.setgid && file.mode.groupExec ==>
               ToInit(caller, r.egid) == ToInit(mount, file.gid)) &&
            (!OwnersMapped(mount, caller, file) ==> r == ids) &&
            (!file.mode.setuid ==> r.euid == ids.euid)
  {
    var r := SetidExec(mount, caller, ids, file);
    if OwnersMapped(mount, caller, file) {
      ChainRoundTrip(caller, r.euid, ToInit(mount, file.uid).id);
      ChainRoundTrip(caller, View(mount, caller, file.gid).id, ToInit(mount, file.gid).id);
      if file.mode.setuid {
        StoreViewRoundTrip(mount, caller, r.euid, file.uid);
      }
    }
  }

  // ---------------------------------------------------------------------
  // Following symlinks (may_follow_link with fs.protected_symlinks)

  /**
   * With protected_symlinks on, a link in a sticky, world-writable directory
   * may be followed only by the link's owner, or when the link's owner is the
   * directory's owner; anything else is EACCES.
   */
  function FollowLink(mount: Chain, caller: Chain, cred: Cred, dir: Inode, link: Inode,
                      protectedSymlinks: bool): (r: Outcome<()>)
    ensures r.Fail? ==> r.err == EACCES
  {
    if !protectedSymlinks then Ok(())
    else if OwnedByCaller(mount, caller, cred, link.uid) then Ok(())
    else if !(dir.mode.sticky && dir.mode.otherWrite) then Ok(())
    else if ToInit(mount, dir.uid).Mapped? && ToInit(mount, dir.uid) == ToInit(mount, link.uid) then Ok(())
    else Fail(EACCES)
  }

  /** The protected-symlink rule in the caller's frame. */
  lemma FollowLinkView(mount: Chain, caller: Chain, cred: Cred, dir: Inode, link: Inode)
    requires Wf(mount, caller) && CredValid(caller, cred)
    requires dir.mode.sticky && dir.mode.otherWrite
    ensures FollowLink(mount, caller, cred, dir, link, true).Ok? <==>
            View(mount, caller, link.uid) == Mapped(cred.fsuid) ||
            (ToInit(mount, dir.uid).Mapped? && dir.uid == link.uid)
    ensures FollowLink(mount, caller, cred, dir, link, true).Fail? ==>
            FollowLink(mount, caller, cred, dir, link, true).err == EACCES
  {
    OwnedByCallerView(mount, caller, cred, link.uid);
    if ToInit(mount, dir.uid).Mapped? && ToInit(mount, dir.uid) == ToInit(mount, link.uid) {
      ForwardChainInjective(mount, dir.uid, link.uid);
    }
  }

  // ---------------------------------------------------------------------
  // File capabilities (the rootid of security.capability)

  /**
   * cap_convert_nscap for a v3 capability whose rootid is v (caller's
   * namespace) on `file`: a caller without CAP_SETFCAP over the file is
   * refused with EPERM before the rootid is looked at; otherwise the rootid's
   * preimage through the mount is stored, or EINVAL when it has none.
   */
  function SetFscapRootid(mount: Chain, caller: Chain, cred: Cred, file: Inode, v: nat): (r: Outcome<nat>)
    ensures r.Fail? ==> r.err in {EPERM, EINVAL}
    ensures r == Fail(EPERM) <==> !CapableOver(mount, caller, cred, file, CapSetfcap)
  {
    if !CapableOver(mount, caller, cred, file, CapSetfcap) then Fail(EPERM)
    else match Store(mount, caller, v)
      case Mapped(h) => Ok(h)
      case Unmapped => Fail(EINVAL)
  }

  /**
   * A rootid can be set exactly when the caller holds CAP_SETFCAP over the
   * file and some stored id shows as the rootid through the mount, and the
   * stored rootid reads back unchanged through the same mount in the same
   * namespace.
   */
  lemma FscapRoundTrip(mount: Chain, caller: Chain, cred: Cred, file: Inode, v: nat)
    requires Wf(mount, caller)
    ensures SetFscapRootid(mount, caller, cred, file, v).Ok? <==>
            CapableOver(mount, caller, cred, file, CapSetfcap) && exists h :: View(mount, caller, h) == Mapped(v)
    ensures SetFscapRootid(mount, caller, cred, file, v).Ok? ==>
            View(mount, caller, SetFscapRootid(mount, caller, cred, file, v).value) == Mapped(v)
  {
    if SetFscapRootid(mount, caller, cred, file, v).Ok? {
      StoreViewRoundTrip(mount, caller, v, SetFscapRootid(mount, caller, cred, file, v).value);
    }
    if exists h :: View(mount, caller, h) == Mapped(v) {
      var h :| View(mount, caller, h) == Mapped(v);
      StoreViewRoundTrip(mount, caller, v, h);
    }
  }
}
