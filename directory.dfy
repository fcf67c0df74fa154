// A directory of the filesystem under test, changed in place by the
// syscalls of the idmapped-mount tests: fchownat, open(O_CREAT)/mknodat/
// mkdirat, unlinkat, renameat and linkat.  Every call goes through a mount (the
// empty chain for the plain path) on behalf of a caller in some namespace,
// and its effect is decided by the oracle; a call that fails changes nothing.

module Filesystem {
  import opened IdMaps
  import opened Chains
  import opened Oracle

  type Name = string

  /** st_uid and st_gid. */
  datatype StatIds = StatIds(uid: nat, gid: nat)

  class Directory {
    /** The directory's own inode. */
    var inode: Inode
    /** Its entries, by name. */
    var entries: map<Name, Inode>

    constructor(dir: Inode, initial: map<Name, Inode>)
      ensures inode == dir && entries == initial
    {
      inode := dir;
      entries := initial;
    }

    /** fchownat(dirfd, name, uid, gid, AT_SYMLINK_NOFOLLOW) */
    method Chown(name: Name, mount: Chain, caller: Chain, cred: Cred, uid: nat, gid: nat) returns (r: Outcome<()>)
      modifies this
      ensures inode == old(inode)
      ensures name !in old(entries) ==> r == Fail(ENOENT) && entries == old(entries)
      ensures name in old(entries) ==>
                match Oracle.Chown(mount, caller, cred, old(entries)[name], uid, gid)
                case Ok(n) => r == Ok(()) && entries == old(entries)[name := n]
                case Fail(e) => r == Fail(e) && entries == old(entries)
    {
      if name !in entries {
        return Fail(ENOENT);
      }
      var outcome := Oracle.Chown(mount, caller, cred, entries[name], uid, gid);
      match outcome
      case Ok(n) =>
        entries := entries[name := n];
        r := Ok(());
      case Fail(e) =>
        r := Fail(e);
    }

    /** open(O_CREAT|O_EXCL), mknodat or mkdirat of a new entry. */
    method Create(name: Name, mount: Chain, caller: Chain, cred: Cred, kind: Kind, mode: Mode,
                  irixSgidInherit: bool) returns (r: Outcome<()>)
      modifies this
      ensures inode == old(inode)
      ensures name in old(entries) ==> r == Fail(EEXIST) && entries == old(entries)
      ensures name !in old(entries) ==>
                match Oracle.Create(mount, caller, cred, old(inode), kind, mode, irixSgidInherit)
                case Ok(n) => r == Ok(()) && entries == old(entries)[name := n]
                case Fail(e) => r == Fail(e) && entries == old(entries)
    {
      if name in entries {
        return Fail(EEXIST);
      }
      var outcome := Oracle.Create(mount, caller, cred, inode, kind, mode, irixSgidInherit);
      match outcome
      case Ok(n) =>
        entries := entries[name := n];
        r := Ok(());
      case Fail(e) =>
        r := Fail(e);
    }

    /** unlinkat(dirfd, name, 0 or AT_REMOVEDIR) */
    method Unlink(name: Name, mount: Chain, caller: Chain, cred: Cred) returns (r: Outcome<()>)
      modifies this
      ensures inode == old(inode)
      ensures name !in old(entries) ==> r == Fail(ENOENT) && entries == old(entries)
      ensures name in old(entries) ==>
                match MayDelete(mount, caller, cred, old(inode), old(entries)[name])
                case Ok(_) => r == Ok(()) && entries == old(entries) - {name}
                case Fail(e) => r == Fail(e) && entries == old(entries)
    {
      if name !in entries {
        return Fail(ENOENT);
      }
      var outcome := MayDelete(mount, caller, cred, inode, entries[name]);
      match outcome
      case Ok(_) =>
        entries := entries - {name};
        r := Ok(());
      case Fail(e) =>
        r := Fail(e);
    }

    /** renameat(dirfd, from, dirfd, to) within this directory. */
    method Rename(from: Name, to: Name, mount: Chain, caller: Chain, cred: Cred) returns (r: Outcome<()>)
      modifies this
      ensures inode == old(inode)
      ensures from !in old(entries) ==> r == Fail(ENOENT) && entries == old(entries)
      ensures from in old(entries) && from == to ==> r == Ok(()) && entries == old(entries)
      ensures from in old(entries) && from != to ==>
                r == MayRename(mount, caller, cred, old(inode), old(entries)[from],
                               if to in old(entries) then Some(old(entries)[to]) else None) &&
                entries == (if r.Fail? then old(entries)
                            else (old(entries) - {from})[to := old(entries)[from]])
    {
      if from !in entries {
        return Fail(ENOENT);
      }
      if from == to {
        // vfs_rename: a source that is its own target is left alone, without any check.
        return Ok(());
      }
      r := MayRename(mount, caller, cred, inode, entries[from], if to in entries then Some(entries[to]) else None);
      if r.Ok? {
        entries := (entries - {from})[to := entries[from]];
      }
    }

    /**
     * linkat(dirfd, from, dirfd, to): a second name for the inode.  The map
     * holds inode values, so the two names do not share later changes.
     */
    method Link(from: Name, to: Name, mount: Chain, caller: Chain, cred: Cred,
                protectedHardlinks: bool, readWrite: bool) returns (r: Outcome<()>)
      modifies this
      ensures inode == old(inode)
      ensures from !in old(entries) ==> r == Fail(ENOENT) && entries == old(entries)
      ensures from in old(entries) && to in old(entries) ==> r == Fail(EEXIST) && entries == old(entries)
      ensures from in old(entries) && to !in old(entries) ==>
                r == MayLink(mount, caller, cred, old(entries)[from], protectedHardlinks, readWrite) &&
                entries == (if r.Fail? then old(entries) else old(entries)[to := old(entries)[from]])
    {
      if from !in entries {
        return Fail(ENOENT);
      }
      if to in entries {
        return Fail(EEXIST);
      }
      r := MayLink(mount, caller, cred, entries[from], protectedHardlinks, readWrite);
      if r.Ok? {
        entries := entries[to := entries[from]];
      }
    }

    /**
     * The owner and group of an entry as stat() through the mount reports
     * them to the caller: each is the caller's view of the stored id, or the
     * overflow id when it has none.
     */
    function Stat(name: Name, mount: Chain, caller: Chain, overflow: nat): (st: StatIds)
      reads this
      requires name in entries
      ensures View(mount, caller, entries[name].uid) == Mapped(st.uid) ||
              (View(mount, caller, entries[name].uid).Unmapped? && st.uid == overflow)
      ensures View(mount, caller, entries[name].gid) == Mapped(st.gid) ||
              (View(mount, caller, entries[name].gid).Unmapped? && st.gid == overflow)
      ensures st.uid == overflow <==>
                View(mount, caller, entries[name].uid) == Mapped(overflow) ||
                View(mount, caller, entries[name].uid).Unmapped?
      ensures st.gid == overflow <==>
                View(mount, caller, entries[name].gid) == Mapped(overflow) ||
                View(mount, caller, entries[name].gid).Unmapped?
    {
      var n := entries[name];
      StatIds(StatId(mount, caller, n.uid, overflow), StatId(mount, caller, n.gid, overflow))
    }
  }
}
