# Idmapped mounts and SEEK_DATA/SEEK_HOLE: a Dafny model

This project models two test programs from xfstests and the kernel behaviour
they check.

**Idmapped mounts** (`src/vfs/idmapped-mounts.c`):

- A user namespace carries an id map: a list of extents, each of which maps
  `count` consecutive namespace ids onto parent ids (`IdMaps`).
- Namespaces nest, so an id crosses a chain of maps to reach the initial
  namespace (`Chains`).
- Inodes store kernel ids. Reading an owner through a mount maps the stored
  id down through the mount's map and up into the caller's namespace; writing
  an id goes the other way.
- On that basis the model states the kernel rules the tests exercise (`Oracle`):
  - `chown_ok`/`chgrp_ok` and the error order EINVAL, EOVERFLOW, EPERM;
  - `may_create` (fsuid/fsgid must have a mapping through the mount), `may_delete` and the sticky bit;
  - `may_linkat` with `protected_hardlinks`, before `vfs_link`;
  - `inode_init_owner` and setgid inheritance, including xfs's `irix_sgid_inherit`;
  - setid exec;
  - `protected_symlinks`;
  - the rootid of v3 file capabilities, behind CAP_SETFCAP over the file;
  - ACL entries.
- A `Directory` class changes its entries in place through `fchownat`,
  create, unlink, rename and link calls (`Filesystem`).
- The expectations of the individual tests are then proved from the maps the
  tests install and the credentials they switch to (`IdmappedScenarios`,
  `NestedUserns`, `NestedChown`). Each is stated for every id the test could
  have used, not only the one it picks. The four chown sweeps of the nested
  test are loops over a `Directory`.

**Seek sanity test** (`src/seek_sanity_test.c`):

- A reference SEEK_DATA/SEEK_HOLE for files made of data and hole runs
  (`SeekModel`).
- The acceptance rule `do_lseek`, with the filesystem's "default behaviour"
  allowance (`LseekCheck`). The expectation tables of test01 to test06 and
  test18 are proved to agree with the reference for every allocation size
  they allow.
- The allocation-size probing of `get_io_sizes` (`IoSizes`), as a method
  proved against a function of its environment.
- `main`'s option handling, `test_basic_support`'s verdict and the loop over
  the test table (`SeekMain`).

`setattr_fix_968219708108` chowns a file to an id that has no mapping
through the mount. Its comment (`src/vfs/idmapped-mounts.c:7364-7367`) says
this fails with EINVAL, and with EOVERFLOW on kernels after commit
b27c82e12965; its check (line 7371) accepts either. The model takes the
newer kernels' behaviour:
- EINVAL only when the caller's own id has no kernel id;
- EOVERFLOW when the kernel id has no preimage through the mount.

`ChownUnmappableFails` states the test's looser "EINVAL or EOVERFLOW".

In the nested test the comment on level 3's last extent speaks of 10000
ids, but the code installs 10000000 (`src/vfs/idmapped-mounts.c:6545`); the
model uses the code's range.

## Model

| member | source | states |
|---|---|---|
| IdMaps.Forward | src/vfs/idmapped-mounts.c:987-1050 | a namespace id is mapped exactly when some extent holds it, and the result is that extent's offset applied to it |
| IdMaps.Inverse | src/vfs/idmapped-mounts.c:1106-1149 | a parent id is mapped back exactly when some extent holds it on the parent side, offset accordingly |
| IdMaps.RoundTrip | src/vfs/idmapped-mounts.c:1091-1104 | in a map without overlapping extents, x maps down to y if and only if y maps up to x |
| IdMaps.ForwardInjective | src/vfs/idmapped-mounts.c:987-1050 | two namespace ids with the same parent id are the same id |
| IdMaps.GetUsernsFd | src/vfs/idmapped-mounts.c:791 | the single-extent map of get_userns_fd(nsid, hostid, range) is well formed (no overlap, no id at or past 4294967295) exactly when neither nsid + range nor hostid + range passes 4294967295, and maps nsid+k to hostid+k for k < range, and nothing else, in both directions |
| IdMaps.AddMapEntryWellFormed | src/vfs/idmapped-mounts.c:7296-7323 | appending an extent that overlaps none of the others keeps the map free of overlaps, and well formed exactly when the new extent stays below 4294967295 |
| IdMaps.LookupBelowLimit | src/vfs/idmapped-mounts.c:791 | a well-formed map never yields 4294967295 (the invalid id), in either direction |
| IdMaps.AddMapEntryForward | src/vfs/idmapped-mounts.c:7296-7323 | after add_map_entry, ids in the new extent map through it and every other id maps as before |
| IdMaps.AddMapEntryInverse | src/vfs/idmapped-mounts.c:7296-7323 | after add_map_entry, parent ids in the new extent map back through it and every other parent id maps back as before |
| Chains.ChainBelowLimit | src/vfs/idmapped-mounts.c:6909-6947 | across a chain of well-formed maps a valid id stays valid, up to the initial namespace and down from it |
| Chains.ChainRoundTrip | src/vfs/idmapped-mounts.c:6909-6947 | crossing a chain of well-formed maps up to the initial namespace and down from it are inverse, in both directions |
| Chains.ToInitAppend | src/vfs/idmapped-mounts.c:6488-6559 | an id of a nested namespace reaches the initial namespace by crossing the inner maps first, then the outer ones |
| Chains.FromInitAppend | src/vfs/idmapped-mounts.c:6488-6559 | a kernel id reaches a nested namespace by crossing the outer maps first, then the inner ones |
| Chains.EmptyLevelHidesAll | src/vfs/idmapped-mounts.c:6866-6897 | a namespace with an empty map sees no kernel id and shows none of its ids to the kernel |
| Chains.AncestorView | src/vfs/idmapped-mounts.c:6809-6864 | a caller looking at an id of a descendant's namespace sees what the descendant's own maps make of it, if and only if that id also exists in the initial namespace |
| Oracle.StoreViewRoundTrip | src/vfs/idmapped-mounts.c:1091-1149 | writing v through a mount stores h if and only if reading h back through the same mount in the same namespace shows v |
| Oracle.View | src/vfs/idmapped-mounts.c:987-1050 | a stored id with no kernel id through the mount is invisible to every caller; with Store it forms the round trip of StoreViewRoundTrip |
| Oracle.Store | src/vfs/idmapped-mounts.c:1091-1104 | an id of the caller with no kernel id cannot be stored through any mount; with View it forms the round trip of StoreViewRoundTrip |
| Oracle.StatId | src/vfs/idmapped-mounts.c:987-1050 | stat through a mount reports the caller's view of the stored id, or the overflow id when there is none |
| Oracle.AclEntry | src/vfs/idmapped-mounts.c:104-169 | an ACL entry reads as the caller's view of the stored id, or as 4294967295 when there is none |
| Oracle.AclEntryUnmapped | src/vfs/idmapped-mounts.c:130-140 | for a valid stored id, the ACL entry reads as 4294967295 if and only if the caller cannot map the id |
| Oracle.Chown | src/vfs/idmapped-mounts.c:7364-7382 | chown fails only with EINVAL, EOVERFLOW or EPERM and never changes the mode; ChownReadsBack, ChownNoGiveAway and ChownUnmappableFails give its meaning |
| Oracle.ViewInjective | src/vfs/idmapped-mounts.c:987-1050 | two stored ids that the caller sees as the same id are the same stored id |
| Oracle.OwnedByCallerView | src/vfs/idmapped-mounts.c:5155-5345 | the kernel's owner test (vfsuid against the caller's kuid) holds if and only if the caller sees itself as the owner through the mount |
| Oracle.InGroupView | src/vfs/idmapped-mounts.c:3852-3911 | the kernel's group test holds if and only if the caller sees the group as its fsgid or as one of its supplementary groups |
| Oracle.ChownReadsBack | src/vfs/idmapped-mounts.c:1091-1104 | for every caller, a successful chown reads back through the same mount as the ids asked for, and the mode is unchanged |
| Oracle.ChownNoGiveAway | src/vfs/idmapped-mounts.c:7373-7382 | without CAP_CHOWN over the filesystem, a successful chown was of a file whose owner the caller could see, and without CAP_CHOWN in the caller's own namespace the stored owner does not change |
| Oracle.ChownUnmappableFails | src/vfs/idmapped-mounts.c:7364-7371 | a chown to an id with no stored preimage through the mount fails with EINVAL or EOVERFLOW, whoever asks |
| Oracle.ChownToSelfAllowed | src/vfs/idmapped-mounts.c:7373-7382 | the owner, as seen through the mount, may chown the file to the ids it sees, and the inode stays exactly as it was |
| Oracle.StickyRuleView | src/vfs/idmapped-mounts.c:5155-5345 | in a sticky directory a file may be removed if and only if the caller sees itself as the file's owner or the directory's owner, or holds CAP_FOWNER over a file whose owners it can map |
| Oracle.MayDelete | src/vfs/idmapped-mounts.c:5155-5345 | removal fails only with EOVERFLOW or EPERM; MayDeleteView gives its meaning |
| Oracle.MayDeleteView | src/vfs/idmapped-mounts.c:5155-5345 | removal succeeds if and only if the victim's owners have kernel ids through the mount and the sticky rule, seen in the caller's frame, allows it; EOVERFLOW if and only if an owner has no kernel id, checked before the sticky bit |
| Oracle.MayCreate | src/vfs/idmapped-mounts.c:616-722 | creation fails only with EOVERFLOW |
| Oracle.MayCreateView | src/vfs/idmapped-mounts.c:616-722 | a name may be created through the mount if and only if some stored id shows as the caller's fsuid and some as its fsgid |
| Oracle.MayLink | src/vfs/idmapped-mounts.c:505-507 | linkat fails only with EOVERFLOW or EPERM; MayLinkView gives its meaning |
| Oracle.MayLinkView | src/vfs/idmapped-mounts.c:616-722 | linkat succeeds if and only if the inode's owners have kernel ids through the mount, the protected_hardlinks rule allows the link in the caller's frame (a safe source, an owner the caller sees as itself, or CAP_FOWNER over an owner it can map), and the caller's fsids show through the mount; EPERM if and only if the owners are mapped but the protected_hardlinks rule refuses; EOVERFLOW otherwise |
| Oracle.MayRename | src/vfs/idmapped-mounts.c:509-515 | rename fails only with EOVERFLOW or EPERM |
| Oracle.MayRenameView | src/vfs/idmapped-mounts.c:509-515 | a rename is allowed if and only if the source may be removed and the target may be removed, or, when there is no target, may be created; a source that may not be removed decides the error |
| Oracle.CreateView | src/vfs/idmapped-mounts.c:3852-3911 | creation fails if and only if fsuid or fsgid has no preimage through the mount; the creator sees itself as owner; a setgid directory passes its group on; S_ISGID of a new directory or setgid file follows the group-membership, CAP_FSETID and irix_sgid_inherit rules; outside a setgid directory only a requested S_ISGID on a regular file survives |
| Oracle.Create | src/vfs/idmapped-mounts.c:3852-3911 | creation fails only with EOVERFLOW, and only regular files can be setuid; CreateView gives its meaning |
| Oracle.SetidExecKernelFrame | src/vfs/idmapped-mounts.c:4454-4478 | after exec of a setuid (setgid, group-executable) binary the euid (egid) is, as a kernel id, the file's owner (group) seen through the mount; a binary with an unmappable owner leaves the ids alone |
| Oracle.SetidExec | src/vfs/idmapped-mounts.c:4454-4478 | a binary without S_ISUID keeps the euid and one without S_ISGID keeps the egid |
| Oracle.FollowLinkView | src/vfs/idmapped-mounts.c:2878-2926 | in a sticky, world-writable directory a symlink may be followed if and only if the caller sees itself as the link's owner or the link and the directory have the same mapped owner; otherwise EACCES |
| Oracle.FollowLink | src/vfs/idmapped-mounts.c:2878-2926 | following a link fails only with EACCES |
| Oracle.FscapRoundTrip | src/vfs/idmapped-mounts.c:1507-1525 | a rootid can be set if and only if the caller holds CAP_SETFCAP over the file (both owners mapped in its namespace) and some stored id shows as the rootid through the mount; the stored rootid reads back unchanged |
| Oracle.SetFscapRootid | src/vfs/idmapped-mounts.c:1507-1525 | setting a rootid fails only with EPERM or EINVAL, and with EPERM if and only if the caller lacks CAP_SETFCAP over the file |
| Filesystem.Directory.constructor | src/vfs/idmapped-mounts.c:6588-6600 | the directory starts with the given inode and entries |
| Filesystem.Directory.Chown | src/vfs/idmapped-mounts.c:6909-6947 | a missing name is ENOENT; otherwise the outcome is the oracle's chown, the entry takes the new inode on success, and nothing else changes |
| Filesystem.Directory.Create | src/vfs/idmapped-mounts.c:528-546 | an existing name is EEXIST; otherwise the outcome is the oracle's create, the new inode is added on success, and nothing else changes |
| Filesystem.Directory.Unlink | src/vfs/idmapped-mounts.c:517-523 | a missing name is ENOENT; otherwise the outcome is may_delete, the name goes on success, and nothing else changes |
| Filesystem.Directory.Rename | src/vfs/idmapped-mounts.c:509-515 | a missing source is ENOENT; a source renamed onto itself succeeds and changes nothing; otherwise the outcome is the rename rule, and on success the inode moves to the new name, replacing any target |
| Filesystem.Directory.Link | src/vfs/idmapped-mounts.c:505-507 | a missing source is ENOENT, an existing target EEXIST; otherwise the outcome is the linkat rule (with protected_hardlinks and the source's read/write permission as inputs), and on success the target names the source's inode |
| Filesystem.Directory.Stat | src/vfs/idmapped-mounts.c:987-1050 | stat through a mount reports, for the owner and for the group, the caller's view of the stored id, or the overflow id when there is none; each shows the overflow id if and only if the stored id has no view or its view is the overflow id |
| NestedUserns.HierWellFormed | src/vfs/idmapped-mounts.c:6488-6559 | every level's map of the nested test has no overlapping extents |
| NestedUserns.Level3Lookups | src/vfs/idmapped-mounts.c:6514-6557 | the third level's three extents map 0..998 and 1001.. by +1000000, 1000 to itself, and leave 999 unmapped, in both directions |
| NestedUserns.ToInitClosedForms | src/vfs/idmapped-mounts.c:6488-6559 | ids of levels 1, 2, 3 are kernel ids plus 1000000, 2000000, 3000000 (level 3: 999 unmapped, 1000 goes to 2001000); level 4 maps nothing |
| NestedUserns.FromInitClosedForms | src/vfs/idmapped-mounts.c:6488-6559 | the inverse closed forms: which kernel ids each level can name, and as what |
| NestedUserns.ShownFromInit | src/vfs/idmapped-mounts.c:6675-6714 | the owners that the initial namespace sees through each level's mount, including the overflow id for 999 and the special case 1000 on level 3 |
| NestedUserns.ShownFromLevel1 | src/vfs/idmapped-mounts.c:6716-6761 | the owners that level 1 sees through each mount |
| NestedUserns.ShownFromLevel2 | src/vfs/idmapped-mounts.c:6763-6807 | the owners that level 2 sees: level 1's mount shows only overflow ids |
| NestedUserns.ShownFromLevel3 | src/vfs/idmapped-mounts.c:6809-6864 | the owners that level 3 sees: through level 2's mount only id 1000 |
| NestedUserns.ShownFromLevel4 | src/vfs/idmapped-mounts.c:6866-6897 | level 4 sees every owner through every mount as the overflow id |
| NestedChown.StoreSameLevel | src/vfs/idmapped-mounts.c:6909-6947 | a level's root writing id v through its own mount stores v, except 999 on level 3, which has no preimage |
| NestedChown.ChownSameLevel | src/vfs/idmapped-mounts.c:7025-7034 | a level's root may chown any file of the range to any id of the range through its own mount; on level 3, chowns to 999 and of FILE1_999 fail |
| NestedChown.SweepLevel1 | src/vfs/idmapped-mounts.c:6909-6947 | the walk of level 1 passes every check and leaves the directory as it found it |
| NestedChown.SweepLevel2 | src/vfs/idmapped-mounts.c:6964-7001 | the walk of level 2 passes every check and leaves the directory as it found it |
| NestedChown.SweepLevel3 | src/vfs/idmapped-mounts.c:7018-7072 | the walk of level 3 passes every check (the chown to 999 and the chown of FILE1_999 fail) and leaves the directory as it found it |
| NestedChown.SweepLevel4 | src/vfs/idmapped-mounts.c:7078-7107 | on level 4 every chown fails, every owner shows as overflow, and the directory is unchanged |
| IdmappedScenarios.ViewsFromInit | src/vfs/idmapped-mounts.c:987-1050 | from the initial namespace, the plain path shows stored ids, the first mount adds 10000 below 10000, and the second adds 30000 up to 2000; everything else overflows |
| IdmappedScenarios.ViewsFromUserns1 | src/vfs/idmapped-mounts.c:1106-1149 | from inside 0:10000:10000, files stored below 10000 show as themselves through the first mount and as overflow elsewhere |
| IdmappedScenarios.ChownFromUserns1 | src/vfs/idmapped-mounts.c:1061-1104 | from inside 0:10000:10000 a chown fails with EPERM through the plain path and EOVERFLOW through the second mount, and stores the requested ids through the first |
| IdmappedScenarios.FsidsUnmapped | src/vfs/idmapped-mounts.c:616-722 | with fsids that have no preimage through the mount, link, rename and every create fail with EOVERFLOW, while unlink and rmdir succeed |
| IdmappedScenarios.FsidsMappedNames | src/vfs/idmapped-mounts.c:505-523 | with fsids 10000 stored as 0, link, both renames and both removals succeed |
| IdmappedScenarios.FsidsMappedCreate | src/vfs/idmapped-mounts.c:528-546 | with the same fsids, creating a file, a node, a character device, a symlink and a directory succeeds, and the new file shows as owned by 10000:10000 |
| IdmappedScenarios.RootCreatesThroughShiftedMount | src/vfs/idmapped-mounts.c:2099-2114 | what root creates through the mount 10000:0:10000 is stored as 10000:10000 and shows as 0:0 through that mount |
| IdmappedScenarios.FscapsThroughMount | src/vfs/idmapped-mounts.c:1507-1525 | through 0:10000:10000, root of the initial namespace can set rootid v on a file owned by 0:0 if and only if 10000 <= v < 20000; it is stored as v - 10000 and reads back as v; anything else is EINVAL; a caller without CAP_SETFCAP gets EPERM |
| IdmappedScenarios.LinkFownerNeedsOwnerUidOnly | src/vfs/idmapped-mounts.c:505-507 | under protected_hardlinks, CAP_FOWNER and a mappable owning uid let a caller link a setuid file whose gid it cannot map |
| IdmappedScenarios.FscapsSeparateUserns | src/vfs/idmapped-mounts.c:1884-1949 | the root of 0:10000:10000 setting rootid k, through 20000:10000:10000, on a file owned by 20000:20000 (which it sees as 0:0) stores 20000 + k, which reads back as k |
| IdmappedScenarios.AclEntries | src/vfs/idmapped-mounts.c:104-169 | an ACL user entry reads as written through the plain path, shifted by 10 through the mount, as 4294967295 from inside the namespace through the plain path, and as written through the mount |
| IdmappedScenarios.StickyThroughShiftedMount | src/vfs/idmapped-mounts.c:5155-5345 | through 10000:0:10000 an unprivileged 1000 may remove a file from a sticky directory if and only if the file or the directory is stored as 11000; without the sticky bit, always |
| IdmappedScenarios.StickyInUserns | src/vfs/idmapped-mounts.c:5426-5603 | inside 0:10000:10000, the sticky bit stops an unprivileged 1000 on the plain path, and through the mount lets it remove files that it or the directory's owner 1000 owns |
| IdmappedScenarios.SetgidCreate | src/vfs/idmapped-mounts.c:3852-3911 | a caller outside the directory's group creates files without S_ISGID and directories with it (unless irix_sgid_inherit), all with the directory's group and owned by 10000 as seen through the mount |
| IdmappedScenarios.SetidThroughMount | src/vfs/idmapped-mounts.c:4454-4478 | a setuid binary stored as k < 10000 runs with euid 10000 + k from the initial namespace and k from inside 0:10000:10000, with the matching egid when it is setgid and group-executable; an owner outside the range leaves the ids alone |
| IdmappedScenarios.ProtectedSymlinks | src/vfs/idmapped-mounts.c:2878-2966 | for a caller c, a link stored as 10000 (the directory's owner) or as 10000 + c may be followed; any other owner is EACCES |
| IdmappedScenarios.CircularMapping | src/vfs/idmapped-mounts.c:7364-7432 | with a mount that swaps u1 and u2, user u2 may chown the file it sees as its own to itself, which leaves it unchanged; every other chown among u1 and u2 is EPERM; any other id is EOVERFLOW |
| IdmappedScenarios.SwapLookups | src/vfs/idmapped-mounts.c:7296-7323 | the swapping map sends u1 and u2 to each other in both directions, and no other kernel id to anything |
| SeekModel.NextDataCorrect | src/seek_sanity_test.c:208-248 | the data search returns the first data byte at or after x, and -1 only when there is none |
| SeekModel.HoleFromCorrect | src/seek_sanity_test.c:208-248 | the hole search returns the first byte at or after x outside all data, and every byte before it is data |
| SeekModel.SeekDataCorrect | src/seek_sanity_test.c:208-248 | SEEK_DATA is ENXIO if and only if off < 0 or no data lies from off to EOF; otherwise it returns the first data byte at or after off |
| SeekModel.SeekHoleCorrect | src/seek_sanity_test.c:208-248 | SEEK_HOLE is ENXIO if and only if off < 0 or off >= size; otherwise it returns the first hole byte at or after off, with EOF counted as a hole |
| SeekModel.SeekStaysPut | src/seek_sanity_test.c:208-248 | SEEK_DATA from a data byte and SEEK_HOLE from a hole byte return the offset itself |
| SeekModel.SeekDataOf | src/seek_sanity_test.c:208-248 | SEEK_DATA is ENXIO outside the file and otherwise lands at or after the offset, inside the file; SeekDataCorrect gives its meaning |
| SeekModel.SeekHoleOf | src/seek_sanity_test.c:208-248 | SEEK_HOLE is ENXIO if and only if the offset is outside the file, and otherwise lands at or after the offset, at most at EOF; SeekHoleCorrect gives its meaning |
| LseekCheck.ReferenceTableAccepts | src/seek_sanity_test.c:222-243 | do_lseek accepts the reference's answer, and a default-behaviour filesystem's answer when default_behavior is set |
| LseekCheck.DefaultNeedsFlag | src/seek_sanity_test.c:222-243 | without default_behavior, a default-behaviour SEEK_DATA answer passes if and only if the offset is negative, at or past EOF, or on data |
| LseekCheck.DoLseek | src/seek_sanity_test.c:222-243 | do_lseek returns 0 or 1; it accepts the expected offset, rejects anything that is neither the expected nor the alternative answer, and accepts an expected failure only with ENXIO |
| LseekCheck.Exp2 | src/seek_sanity_test.c:222-243 | the alternative answer is the expected one, EOF or the offset; without default_behavior SEEK_DATA has no alternative, and an expected SEEK_HOLE failure stays a failure |
| LseekCheck.BasicSupportDetects | src/seek_sanity_test.c:1201-1212 | on two units of data then two of hole, SEEK_HOLE from 0 returns 2A on a precise filesystem and the size 4A on a default one |
| LseekCheck.ReferenceTablePasses | src/seek_sanity_test.c:1096-1105 | a table whose every expectation is the reference's answer adds up to no failures on either kind of filesystem |
| LseekCheck.TwoIntervalsSeek | src/seek_sanity_test.c:869-937 | on a file whose data is two intervals, the reference agrees with a case analysis on the offset |
| LseekCheck.Test01Holds | src/seek_sanity_test.c:1096-1105 | on an empty file every test01 expectation is the reference's answer |
| LseekCheck.Test18Holds | src/seek_sanity_test.c:421-434 | negative offsets down to LLONG_MIN are ENXIO for both whences |
| LseekCheck.Test02Holds | src/seek_sanity_test.c:1066-1093 | test02's expectations on eight bytes of data are the reference's answers |
| LseekCheck.Test03Holds | src/seek_sanity_test.c:1030-1063 | test03's expectations on 2A + 100 bytes of data are the reference's answers for every A |
| LseekCheck.Test04Holds | src/seek_sanity_test.c:989-1027 | test04's expectations on a 2A hole followed by eight bytes are the reference's answers for every A >= 1 |
| LseekCheck.Test05Holds | src/seek_sanity_test.c:940-986 | test05's expectations on one unit of data in a 4A file are the reference's answers for every A >= 2 |
| LseekCheck.Test06Data | src/seek_sanity_test.c:869-890 | test06's file holds data exactly in its second and fourth units |
| LseekCheck.Test06StartHolds | src/seek_sanity_test.c:892-896 | test06's start group holds for every A >= 2 |
| LseekCheck.Test06FirstHolds | src/seek_sanity_test.c:898-904 | test06's first-boundary group holds for every A >= 2 |
| LseekCheck.Test06SecondHolds | src/seek_sanity_test.c:907-913 | test06's second-boundary group holds for every A >= 2 |
| LseekCheck.Test06ThirdHolds | src/seek_sanity_test.c:916-922 | test06's third-boundary group holds for every A >= 2 |
| LseekCheck.Test06EndHolds | src/seek_sanity_test.c:925-931 | test06's end group holds for every A >= 2 |
| LseekCheck.Test06Holds | src/seek_sanity_test.c:869-937 | all of test06 holds for every A >= 2 |
| LseekCheck.TablesPass | src/seek_sanity_test.c:1113-1135 | test01 to test06 and test18 report no failure on a precise filesystem, and on a default-behaviour one once default_behavior is set |
| IoSizes.UnitStart | src/seek_sanity_test.c:89-91 | the allocated unit holding a byte starts at or below it, less than a unit below, and at 0 if and only if the byte is in the first unit |
| IoSizes.ProbeIsSeekData | src/seek_sanity_test.c:89-91 | a probe is lseek(fd, 0, SEEK_DATA) on a file truncated to 0 with one byte written |
| IoSizes.ProbeDetectsUnit | src/seek_sanity_test.c:89-91 | a probe at offset returns a value between 0 and offset, and it is non-zero if and only if offset has reached the allocation unit |
| IoSizes.Doubling | src/seek_sanity_test.c:86-93 | the doubling loop ends having seen data before the byte or having reached st_blksize, never below where it started, and aborts only without SEEK_DATA |
| IoSizes.Bisect | src/seek_sanity_test.c:97-106 | the bisection loop ends with the step used up or the offset at st_blksize, with the offset still positive, and aborts only without SEEK_DATA |
| IoSizes.GetIoSizes | src/seek_sanity_test.c:65-117 | get_io_sizes returns what the specification function makes of its environment: the XFS geometry, an fstat error, no SEEK_DATA, or the probed size |
| IoSizes.IoSizesSpec | src/seek_sanity_test.c:65-117 | get_io_sizes reports an fstat error if and only if fstat fails off XFS, reports no SEEK_DATA only when lseek lacks it, and any probed size is at least 1 |
| IoSizes.DoublingReachesUnit | src/seek_sanity_test.c:86-93 | with a power-of-two unit no larger than st_blksize, doubling stops exactly at the unit |
| IoSizes.FirstReachLeast | src/seek_sanity_test.c:86-93 | below the first power of two that reaches the unit or st_blksize, every power of two from 2 up reaches neither |
| IoSizes.FirstReachUnique | src/seek_sanity_test.c:86-93 | there is only one first reaching power of two |
| IoSizes.DoublingFrom | src/seek_sanity_test.c:86-93 | doubling from 2^j with no data seen stops at the first power of two above it that reaches the unit or st_blksize, holding the probe taken there |
| IoSizes.DoublingStops | src/seek_sanity_test.c:86-93 | for every unit and st_blksize, the doubling loop does not run when st_blksize <= 1, and otherwise stops at the least power of two 2^k (k >= 1) that reaches the unit or st_blksize, with pos the start of the unit holding 2^k |
| IoSizes.StepSumPow2 | src/seek_sanity_test.c:97-106 | the halving steps from 2^t add up to 2^(t+1) - 1 |
| IoSizes.BisectClimbs | src/seek_sanity_test.c:97-106 | while every probe stays below the unit, the bisection climbs by exactly the sum of its steps |
| IoSizes.BisectFromUnit | src/seek_sanity_test.c:97-108 | starting at a unit of 8q bytes, the bisection steps below it and climbs back to one byte under the unit |
| IoSizes.PowerOfTwoUnitFound | src/seek_sanity_test.c:86-109 | a power-of-two allocation unit of 8 bytes or more, no larger than st_blksize, is found exactly |
| IoSizes.XfsGeometryDecides | src/seek_sanity_test.c:44-63 | on XFS the size is the block size, times the realtime extent size for a realtime file, without probing |
| IoSizes.NoSeekDataDetected | src/seek_sanity_test.c:86-93 | without SEEK_DATA, get_io_sizes fails as soon as st_blksize exceeds 1 |
| IoSizes.FourByteUnitMisread | src/seek_sanity_test.c:97-109 | a 4-byte allocation unit is reported as 3 |
| IoSizes.ByteUnitMisread | src/seek_sanity_test.c:86-93 | a 1-byte allocation unit is reported as 2 |
| IoSizes.SixByteUnitMisread | src/seek_sanity_test.c:86-109 | a 6-byte allocation unit is reported as 5 |
| IoSizes.PowerOfTwoMatchesAim | src/seek_sanity_test.c:83-109 | where the probing finds the unit, it agrees with the corrected specification |
| IoSizes.AllocUnitSpec | src/seek_sanity_test.c:83-109 | the intended size, when SEEK_DATA works, is at least 1 and at most the unit, and below the unit only when capped by st_blksize (or 1 when st_blksize is 0); no SEEK_DATA is reported exactly when lseek lacks it |
| IoSizes.GetIoSizesBisected | src/seek_sanity_test.c:83-109 | the corrected probing returns the allocation unit capped at st_blksize, or the same errors as get_io_sizes |
| SeekMain.ParseArgs | src/seek_sanity_test.c:1274-1312 | option processing returns what the specification function makes of the options and operands |
| SeekMain.Verdict | src/seek_sanity_test.c:1274-1312 | main runs if and only if there is exactly one operand, every option is accepted and the last -s is not past the last -e; -t and -f set check-only and refuse default behaviour exactly when given |
| SeekMain.VerdictInRange | src/seek_sanity_test.c:1274-1312 | whatever main goes on to run has 1 <= start <= end <= 21 |
| SeekMain.LastStartAccepted | src/seek_sanity_test.c:1285-1292 | with every option accepted, the last -s value lies in 1..21 |
| SeekMain.LastEndAccepted | src/seek_sanity_test.c:1293-1300 | with every option accepted, the last -e value lies in 1..21 |
| SeekMain.DefaultRun | src/seek_sanity_test.c:1274-1275 | with only the path, main runs tests 1 to 12 and allows the default behaviour |
| SeekMain.StartPastDefaultEnd | src/seek_sanity_test.c:1310-1312 | -s 13 alone is refused because of the default end 12; with -e 21 it runs 13 to 21 |
| SeekMain.UsageCases | src/seek_sanity_test.c:1274-1312 | out-of-range numbers, a missing or extra operand, and a reversed range all end in usage |
| SeekMain.PreciseSupported | src/seek_sanity_test.c:1192-1219 | test_basic_support passes a precise filesystem without default behaviour |
| SeekMain.DefaultDetected | src/seek_sanity_test.c:1192-1219 | test_basic_support detects a default-behaviour filesystem (SEEK_HOLE lands on EOF), sets default_behavior, and refuses the filesystem under -f |
| SeekMain.SelectedMembers | src/seek_sanity_test.c:1321-1323 | the tests selected are exactly the table's numbers in [start, end], in increasing order |
| SeekMain.SelectedPrefix | src/seek_sanity_test.c:1321-1323 | selecting among fewer table entries gives a prefix of the selection |
| SeekMain.RunSelected | src/seek_sanity_test.c:1321-1327 | the loop runs a prefix of the selected tests, in order; all before the last passed; it returns 0 if and only if every selected test ran and passed, and otherwise the failing test's value |

## Left out

- Everything the tests do through system calls is replaced by the model of
  its effect: process creation and waiting, namespace and mount setup,
  switching credentials, capability dropping, io_uring variants and output.
- One map serves both uids and gids. Every test modelled here installs the
  same map for both.
- The rules use only the mode bits they look at. Left out are:
  - umask and the ACL mask;
  - directory write and search permission;
  - nosuid mounts;
  - clearing setuid/setgid on chown;
  - EXDEV across mounts;
  - the binary format of the security.capability attribute;
  - a chown argument of -1 (leave unchanged).
- Ids are 32-bit only through `IdMaps.WellFormed`: no extent of a map may
  reach 4294967295, as map_write demands. Stored ids and rootids are
  unbounded naturals. Oracle.AclEntryUnmapped therefore asks for a stored id
  below 4294967295, the only kind an inode can hold. map_write's refusal of
  an empty extent is not modelled; an empty extent maps nothing.
- Oracle.SetFscapRootid: the version-2 capability and the check of the
  attribute's header are not modelled; only version 3 is set by the tests.
- Oracle.MayLink: inodes do not record their kind, so vfs_link's EPERM for a
  directory and safe_hardlink_source's regular-file test are not modelled.
  Whether inode_permission grants read and write on the source is an input
  (`readWrite`), because the read and write mode bits are not modelled.
- Filesystem.Directory.Link: the directory holds inode values, so two names
  of one hard link do not share later changes (no aliasing).
- Filesystem.Directory.Create: symlinks and character devices are created as
  regular inodes. The rules that decide their success and ownership do not
  depend on the kind.
- The remaining idmapped-mount tests (immutable files, racing aio, swapfiles,
  fiexchange and other helpers listed beside the core) are not part of this
  model.
- The seek test's unwritten-extent, dirty-page, huge-file and punch-hole tests
  (7 to 17, 19 to 21) and their file preparation by pwrite and fallocate are
  left out. Only the tables of tests 1 to 6 and 18 are modelled.
- LseekCheck.Test05Holds, LseekCheck.Test06Holds: proved only for A >= 2.
  With A = 1 their tables do not match a precise filesystem. Test04Holds
  needs A >= 1.
- IoSizes.GetIoSizes: off_t is unbounded, so the shifts in the loops never
  overflow. The file contents of the probes are represented by the single
  allocated unit.
- SeekMain.ParseArgs: getopt and strtol are left out. The options arrive
  parsed, and a non-numeric argument is an out-of-range number.
- SeekMain.RunSelected: each test's return value is an input. The
  check-only flag (-t) and test_basic_support's early exit are not part of
  the loop.
- test_basic_support's probes of fallocate and of pwrite/ftruncate errors
  are I/O results and are left out. Only its SEEK_DATA/SEEK_HOLE verdict is
  modelled.

## Findings

| source | as written | input that shows it | evidently intended | confidence | as-written member | corrected member |
|---|---|---|---|---|---|---|
| src/seek_sanity_test.c:86-109 | the bisection starts with a step of offset/4 and ends on whichever probe came last, and the doubling loop never probes offset 1 | a filesystem allocating in 4-byte units with st_blksize 4096 yields alloc_size 3; with 6-byte units it yields 5; with 1-byte units it yields 2 | alloc_size is the allocation unit (capped at st_blksize), as it is for power-of-two units of 8 bytes or more that are no larger than st_blksize | not executed | IoSizes.FourByteUnitMisread, IoSizes.SixByteUnitMisread, IoSizes.ByteUnitMisread | IoSizes.GetIoSizesBisected |
