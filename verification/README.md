# Aufs, modelled and proved

Aufs stacks branches, each a directory tree of some lower file system, into one tree. Index 0 is on
top. This project models the logic that decides what a name means across the stack, and the logic
that keeps cached per-branch state right while branches, entries and pages change underneath, and
proves what that logic promises.

The modules follow the program:

- **Namespace of a directory.** `Names`, `Stack` (branches, whiteouts, opaque directories, the merged
  view), `Lookup` and `Fresh` (`lkup_dentry` and what it computes), `Edit` (what one change to one
  branch does to the view), `Union` (lower operations that may fail, choice of the branch), `OpDel`,
  `OpAdd`, `OpRen`, `OpRmdir` (unlink, create and mkdir, rename, rmdir, with their rollback ladders),
  `Namespace` (system calls and whole runs against a flat namespace), `Removal` (rmdir against it),
  `Whiteouts`, `Readdir`, `Listing`, `Emptiness` (readdir and the two emptiness tests, and why all of
  them agree with lookup).
- **The vdir cache.** `VdirPack`, `VdirWrite`, `VdirRead`: entries packed into 512-byte blocks, as
  bytes, and reads of them that can stop anywhere and go back; `Listdir`: readdir as a whole, against
  lookup.
- **The branch table and re-indexing.** `BranchIds`, `BranchTable`, `Slots`, `Reindex`, `Remount`.
- **Walks over cached dentries.** `Dcsub`, `RefreshDirs`, `SlowLoops`.
- **Copy-up and inode numbers.** `CopyFile`, `Xino`.

`Util` holds what several of them use.

What the source changes in place is a class with methods that change it; each such method is proved
against functions and predicates on values, and what the source promises is proved about those. A lower
file system call is one step, which either does what it should or returns any negative error
(`Names.LowerFault`), so a statement about an operation holds wherever its lower calls fail. The constant
`Names.FAULTS`, about which nothing is known, says whether lower calls fail at all; contracts use it to
say also when an operation must succeed, so that none is met by giving up.

Whiteouts are ordinary lower entries with the prefixed name, beside the entry they hide. The namespace
invariant (`Stack.AtRest`) says: no branch holds a name and its whiteout; only branches whose whiteouts
lookup honours hold any, as regular files; a branch that does not contribute to a directory holds no
names of it; and the cached parent directories are as a lookup leaves them. Each operation is shown to
restore it. It is also necessary: `Listing` has stacks that break it, for which lookup and readdir
disagree.

Some statements turned out to need a condition, which is then exact:

- unlink and rename do what they should if and only if no whiteout was needed or the written branch
  honours whiteouts. A branch mounted `rw+nolwh` is writable and does not
  (`OpDel.UnlinkOutcome`, `OpRen.RenameOutcome`; `Whiteouts.NoLinkKeepsName` has the failing case).
- rmdir of an empty directory removes its name if and only if, besides, what stands below is not
  overlooked. Whether a whiteout is necessary is asked of a second lookup, which stops at the first
  branch it has to look at when the first lookup noted a whiteout further down; so a lower directory
  of the same name can come back after a successful rmdir (`OpDel.BelowDir`, `Removal.RmdirOutcome`;
  `Removal.Outlives` has the failing case). Its lower directory goes without a trace if and only if it
  holds no directory itself, as one removed before and not emptied yet would be (`OpRmdir.AufsRmdir`,
  `Removal.LeftBehind`).
- a copied-up file whose writes succeed has the length of its source, or one byte more, the latter if
  and only if the last read was a whole block and the last block is all zeros; some sequence of short
  reads makes it too long if and only if the last block is all zeros, whatever the length
  (`CopyFile.CopyFile`, `CopyFile.TooLongSomehow`, `CopyFile.OneTooLong`). A write that fails is
  dropped without an error (`CopyFile.DroppedWrite`).
- a refreshed inode maps each surviving branch to the lower inode it had if and only if no branch id it
  still held was issued again, which can happen since the id counter wraps (`Remount.RefreshRight`,
  `BranchIds.Reissued`; `Remount.StaleSlot` has the failing case).

The numbers are those of a 64-bit kernel: an `ino_t` of 8 bytes, blocks of 512 bytes, pages of 512
pointers, and a branch limit of 32767 with a 16-bit branch index. README:45 of the repository asks that a
failed call leave the view alone; the code can only promise that for errors other than `EIO`, and for
`EIO` when no more than one lower call failed, the rollback included, and that is what is proved.

## Model

| member | source | states |
|---|---|---|
| Lookup.LkupOne | fs/aufs/dentry.c:117-146 | one lower lookup: positive exactly when the branch holds the name, whatever the lower call may fail with |
| Lookup.IsWh | fs/aufs/whout.c:81-122 | the whiteout test: true exactly for a regular file under the prefixed name; anything else under that name is an I/O error |
| Lookup.Dentry.UpdateDbstart | fs/aufs/dinfo.c:391-409 | leading slots without an entry go, and bstart becomes the first positive slot |
| Lookup.DoLookup | fs/aufs/dentry.c:167-257 | on one branch: whiteout, wrong type and opaqueness are honoured as the scan function says, whiteouts and opaqueness only on branches that honour them |
| Lookup.LkupDentry | fs/aufs/dentry.c:263-351 | without a lower failure the loop leaves exactly the dentry state of the functional scan, slots filled by an earlier lookup included, and returns its count |
| Fresh.ScanAgain | fs/aufs/dentry.c:292-337 | a directory looked up again by a dentry that has some of its lower directories: it gains every other one that it comes to, and no more, counts them all, and notes the whiteout or the opaque directory that stops it |
| Fresh.LookedAgain | fs/aufs/dentry.c:436-553 | the same with its bounds, as after branches were added |
| Fresh.ScanFilled | fs/aufs/dentry.c:297-304 | a lookup that does not want a directory goes no further than a branch for which the dentry has something |
| Lookup.PastTail | fs/aufs/dinfo.c:278-310 | behind the parent's tail no branch contributes anything |
| Stack.Tails | fs/aufs/dinfo.c:278-310 | what dbtail and dbtaildir mean: nothing counts before the first branch, at or behind a whiteout noted inside the range, or behind an opaque directory, and everything else does |
| Lookup.ScanCount | fs/aufs/dentry.c:263-351 | the number returned is the number of branches merged |
| Lookup.ScanSlot | fs/aufs/dentry.c:263-351 | a slot is positive exactly on the merged branches |
| Fresh.MergeIff | fs/aufs/dentry.c:263-351 | the merge, declaratively: a branch contributes iff it holds the name, no whiteout stands at or above it, and it is topmost, or it and the topmost are directories and none above it is opaque |
| Fresh.MergeDirIff | fs/aufs/dentry.c:263-351 | the same for a lookup that wants one type |
| Fresh.MergeVis | fs/aufs/dentry.c:263-351 | the visible entry of the name is the topmost one merged |
| Fresh.OpqFacts | fs/aufs/dinfo.c:294-310 | an opaque directory is the last contributor |
| Fresh.WhFacts | fs/aufs/dinfo.c:278-292 | a whiteout that stops the scan stands below every contributor |
| Fresh.FreshNegative | fs/aufs/dentry.c:263-351 | after a lookup that finds nothing: one negative slot on the directory's first branch, and the whiteout that hides the name remembered |
| Fresh.FreshPositive | fs/aufs/dentry.c:263-351 | after one that finds something: positive slots exactly on the contributors, bstart and bend the first and last of them |
| Fresh.FreshDirOk | fs/aufs/dinfo.c:278-310 | a directory found is a valid parent in turn: the branches up to its tail with a slot are exactly its contributors |
| Fresh.FreshNondir | fs/aufs/dentry.c:263-351 | a non-directory sits on exactly one branch, the topmost |
| Fresh.FreshIsDir | fs/aufs/dentry.c:263-351 | a directory just looked up is a good parent, has its first slot where its name is topmost, and slots only for lower directories of the name |
| Fresh.BelowNondir | fs/aufs/dentry.c:263-351 | a lookup continued below a non-directory finds something iff the name would be visible without it |
| Edit.GrowKeeps | fs/aufs/cpup.c:651-732 | copying a parent directory up to a branch changes neither the view nor the invariant |
| Union.Union.SimpleCreateWh | fs/aufs/whout.c:703-731 | afterwards the whiteout is there, made or found; on an error nothing changed |
| Union.Union.FindRwParent | fs/aufs/branch.c:83-123 | the search for a writable branch that holds the parent |
| Union.Union.FindRwBr | fs/aufs/branch.c:125-133 | the nearest writable branch upwards |
| Union.Union.FindRwParentBr | fs/aufs/branch.c:135-143 | first the one search, then the other, with the branch that gives |
| Union.Union.TestRo | fs/aufs/misc.c:207-218 | the wanted branch itself unless it is read-only, else the one the search gives |
| Union.TargetFacts | fs/aufs/branch.c:83-143 | the branch chosen is writable and at or above the wanted one; the choice fails, with EROFS, exactly when no branch from the top to the wanted one is writable |
| Union.TargetChoice | fs/aufs/branch.c:83-143 | which branch is chosen: the wanted one if it can be written; else the topmost writable one down to it that holds the directory; else the nearest writable one above |
| Union.RwParentFacts | fs/aufs/branch.c:83-123 | the wanted branch if it holds the directory and can be written, else the topmost such branch down to it, else EROFS |
| OpDel.WrDirNeedWh | fs/aufs/i_op_del.c:28-96 | the branch to work on, with the parent copied up there, and whether a whiteout is judged necessary: when the branch is above the entry's, or the name would show through from below and, for a directory, the second lookup does not miss it |
| OpDel.BelowDir | fs/aufs/i_op_del.c:66-91 | for any dentry of a directory that has slots only for lower directories of its name: the second lookup finds something below iff the name is visible there, and no whiteout noted before stops it at a branch for which the dentry has nothing |
| OpDel.LockHdirCreateWh | fs/aufs/i_op_del.c:99-138 | the whiteout is made exactly when judged necessary; a failure leaves all branches as they were |
| OpDel.DoRevert | fs/aufs/i_op_del.c:191-208 | the whiteout is taken back unless that fails too, or the error becomes EIO |
| OpDel.AufsUnlink | fs/aufs/i_op_del.c:212-281 | success leaves exactly the unlinked state on the chosen branch; an error other than EIO, or any error when no more than one lower call failed, leaves all branches as they were; only the chosen branch is written; without lower failures it fails only for want of a writable branch |
| OpDel.UnlinkOutcome | fs/aufs/i_op_del.c:212-281 | the unlinked state shows the old view without the name, and is at rest again, iff no whiteout was needed or the branch honours whiteouts |
| OpDel.NoStaleWh | fs/aufs/i_op_del.c:28-96 | no whiteout of a visible name stands at or above its branch |
| Whiteouts.Minimal | fs/aufs/i_op_del.c:28-138 | a whiteout is judged necessary exactly when without it the name would still be visible after the removal |
| Whiteouts.NoLinkKeepsName | fs/aufs/branch.h:69-80 | a stack at rest whose upper branch is rw+nolwh: the unlink makes its whiteout there and the name stays in the view |
| OpAdd.LkupNeg | fs/aufs/dentry.c:386-430 | the branch must not hold the name; the dentry gets a negative slot there |
| OpAdd.WrDir | fs/aufs/i_op.c:282-368 | for a new entry: the target branch, its parent copied up there, and the dentry's state, trimmed and negative there; the parents of other directories untouched |
| OpAdd.LockHdirLkupWh | fs/aufs/i_op_add.c:92-130 | the branch, and whether the whiteout there has to go |
| OpAdd.Epilog | fs/aufs/i_op_add.c:31-84 | the whiteout is removed, or on a later failure put back |
| OpAdd.CreateEntry | fs/aufs/i_op_add.c:152-241 | the entry in the place of its whiteout, or, on any error other than EIO or after a single lower failure, the entries as before with the whiteout perhaps made anew |
| OpAdd.AddSimple | fs/aufs/i_op_add.c:152-241 | create, mknod and symlink: success leaves exactly the added state on the chosen branch; any error other than EIO, and any at all after a single lower failure, leaves a restored one; without lower failures it fails only for want of a writable branch |
| OpAdd.AddOutcome | fs/aufs/i_op_add.c:152-241 | the added state is at rest and shows the old view with exactly the new object added |
| OpAdd.RestoredOutcome | fs/aufs/i_op_add.c:31-84 | a reverted creation is at rest and shows the old view |
| OpAdd.SetDiropq | fs/aufs/whout.c:579-628 | the opaque mark is set or removed, or nothing changed |
| OpAdd.AufsMkdir | fs/aufs/i_op_add.c:509-604 | mkdir: the new directory is opaque when a whiteout hid the name on its branch, or always if so configured; failures are undone, a single one always |
| OpAdd.MkdirOutcome | fs/aufs/i_op_add.c:509-604 | a new directory has exactly one contributing branch, even when its whiteout hid lower directories of that name |
| OpAdd.NewDirEmpty | fs/aufs/i_op_add.c:509-604 | the new directory, as a lookup finds it, is one more directory at rest, with no visible name, although lower branches may still hold names of it |
| OpRen.CpupSingle | fs/aufs/cpup.c:408-510 | a copy of the entry appears on the branch, or nothing does, or EIO |
| OpRen.CpupSimple | fs/aufs/cpup.c:562-594 | as above after making sure the name is absent there |
| OpRen.MoveFile | fs/aufs/i_op_ren.c:39-357 | the lower rename, or copy-up under the new name, with what an error leaves; source and destination are different files |
| OpRen.Unmove | fs/aufs/i_op_ren.c:39-357 | the first rung of the rollback: the file is back under its old name unless a lower call fails again, or EIO |
| OpRen.UnmakeWh | fs/aufs/i_op_ren.c:39-357 | the last rung: the whiteout made for the source is gone unless a lower call fails again, or EIO |
| OpRen.MoveBack | fs/aufs/i_op_ren.c:39-357 | moving back undoes the move exactly, because the destination was absent there; the invariant provides that |
| OpRen.MoveOver | fs/aufs/i_op_ren.c:39-357 | the move and the removal of the destination's whiteout, or the file is back |
| OpRen.DoRename | fs/aufs/i_op_ren.c:39-357 | success leaves exactly the renamed state; any error other than EIO, and any at all after a single lower failure, leaves the branches as they were, or with a copy of the source on the target branch |
| OpRen.PrepareDst | fs/aufs/i_op.c:282-368 | the branch for a rename and the destination's parent copied up to it; the destination is there exactly when the dentry says so |
| OpRen.PrepareRename | fs/aufs/i_op_ren.c:411-615 | the target branch at or above both entries, both parents copied up to it, and which whiteouts matter there |
| OpRen.AufsRename | fs/aufs/i_op_ren.c:411-615 | the whole call for a non-directory: only the target branch is written, EROFS exactly when there is none, and the states above; without lower failures nothing else makes it fail |
| OpRen.RenameOutcome | fs/aufs/i_op_ren.c:39-357 | for two different files the renamed state shows the old view with the destination bound to the source's object and the source gone, and is at rest again, iff no whiteout was needed or the branch honours whiteouts |
| OpRen.UnrenamedOutcome | fs/aufs/i_op_ren.c:39-357 | every state a rename that failed other than by EIO leaves, whichever lower call failed, shows the old view and is at rest |
| OpRmdir.LkupWhtmp | fs/aufs/whout.c:145-201 | the first of the next three temporary names that the branch does not hold, the counter left behind it; without lower failures it is found iff one of them is free and the name not too long |
| OpRmdir.TriesDiffer | fs/aufs/whout.c:176-190 | temporary names of successive tries differ, as long as the counter has not gone around |
| OpRmdir.RoomyIs | fs/aufs/whout.c:145-201 | when there is room: thirteen characters more fit, and not all of three names are taken |
| OpRmdir.RenameWhtmp | fs/aufs/whout.c:206-238 | the lower directory and what is in it stand under the temporary name, or nothing changed |
| OpRmdir.RmdirWhtmp | fs/aufs/whout.c:815-873 | the whiteouts in it go, then the directory; with nothing but whiteouts noted in it and without lower failures all of it goes iff none of them is a directory |
| OpRmdir.RenwhAndRmdir | fs/aufs/i_op_del.c:140-174 | on success the name is gone and all that differs besides is under temporary names, all of it if the emptying is put off; on failure nothing changed; without lower failures nothing is left behind iff the emptying was not put off and the directory held no directory under a whiteout name |
| OpRmdir.AufsRmdir | fs/aufs/i_op_del.c:282-389 | success means an empty listing, and leaves the removed state on the chosen branch but for what stands under temporary names; any error but EIO, and any at all after a single lower failure, leaves all branches as they were; without lower failures it succeeds iff the listing is empty, a branch can be written and a temporary name is free on it, and then nothing is left behind iff no lower directory was on that branch, or it held no directory and the emptying was not put off |
| Removal.EmptyNames | fs/aufs/dir.c:475-502 | a directory that passes the emptiness test has no visible name |
| Removal.CopiedUp | fs/aufs/cpup.c:651-732 | copying a directory up, its entry in its parent included, leaves its dentry such as the rmdir results ask for |
| Removal.RmdirOutcome | fs/aufs/i_op_del.c:282-389 | the removed state shows the old view without the name iff no whiteout was needed, or one was judged necessary and the branch honours it; it is at rest iff a whiteout was made only where it is honoured |
| Removal.Outlives | fs/aufs/dentry.c:312-324 | four branches at rest, every writable one honouring whiteouts: rmdir succeeds and the empty directory is still there |
| Removal.LeftBehind | fs/aufs/whout.c:262-285 | an empty directory at rest that holds, under a temporary name, a directory removed before: its own rmdir succeeds and leaves something behind |
| Namespace.Find | fs/aufs/i_op.c:227-273 | a fresh lookup is positive exactly when the merged view has the name |
| Namespace.ReadOnlyOne | fs/aufs/branch.c:83-143 | no branch can be chosen exactly when every branch from the top down to where the name is, or would be, is read-only |
| Namespace.ReadOnlyTwo | fs/aufs/i_op.c:282-368 | the same for the two names of a rename |
| Namespace.SysUnlink | fs/aufs/i_op_del.c:212-281 | refines the flat unlink() of POSIX.1: success was allowed and removes exactly the name, any error changes nothing in the view unless it is EIO after more than one lower failure, read-only branches are never written; without lower failures it succeeds iff the flat call may and a branch can be written |
| Namespace.SysCreate | fs/aufs/i_op_add.c:152-269 | refines flat creation of a non-directory in the same two-sided sense |
| Namespace.SysMkdir | fs/aufs/i_op_add.c:509-604 | refines flat mkdir() likewise; the new directory merges one branch only, is empty whatever old lower directories of its name hold, and is one more directory that calls can work in |
| Namespace.SysRename | fs/aufs/i_op_ren.c:411-615 | refines the flat rename() of POSIX.1 for non-directories likewise; between two links to one file it succeeds and does nothing |
| Namespace.RenameRefines | fs/aufs/i_op_ren.c:39-357 | the renamed state is the flat rename of the old view, which the flat directory would have allowed and which is not the case of two links to one file |
| Removal.SysRmdir | fs/aufs/i_op_del.c:282-389 | against a flat rmdir(): success was allowed, and removes exactly the name iff it is not one that is overlooked; any error changes nothing unless it is EIO after more than one lower failure; without lower failures it succeeds iff the directory is there and lists nothing, a branch can be written, and a temporary name is free |
| Namespace.RunStep | README:45 | one more call keeps a run in step with the flat run |
| Namespace.Run | README:45 | any sequence of calls under any faults, in the directories there are and in those the run makes, ended early only by a call that returns EIO after more than one lower failure: the view passes through exactly the flat states of the calls that succeeded, each of them allowed there; the invariant holds throughout and no read-only branch changes; without lower failures and with a writable top branch each call succeeds iff the flat directory allows it: the union then is the flat directory |
| Readdir.Filler.FillVdir | fs/aufs/vdir.c:411-473 | one lower entry: listed unless its name or whiteout is known from above; a whiteout is noted once |
| Readdir.FilledStep | fs/aufs/vdir.c:411-473 | the hash lists hold exactly the shown names and the whiteouts of what was read so far, and the list each shown name once |
| Readdir.ReadBranch | fs/aufs/vdir.c:475-587 | one branch read to its end, in any number of calls of the lower readdir |
| Readdir.ReadVdir | fs/aufs/vdir.c:475-587 | without an error the list is the complete merge: exactly the names shown, each once, from the right branch, in the order in which they were read |
| Listing.ShownIsTopmost | fs/aufs/vdir.c:411-473 | a plain name is shown from a branch iff that branch is the one where lookup would first meet it |
| Listing.LookupIffListed | fs/aufs/dentry.c:263-351 | lookup and readdir agree: a complete listing has a plain name, exactly once, iff a fresh lookup finds a positive entry, and from the branch where lookup puts it |
| Listing.RefusedButShown | fs/aufs/vdir.c:429 | of the names lookup refuses readdir shows at most the bare prefix |
| Listing.BarePrefixShown | fs/aufs/vdir.c:429 | and that one it does show |
| Listing.BothDisagree | fs/aufs/dentry.c:167-257 | with a name beside its whiteout readdir shows what lookup denies |
| Listing.StrayWhiteoutDisagrees | fs/aufs/vdir.c:411-473 | with a whiteout on a branch that must hold none, lookup finds what readdir hides |
| Emptiness.WhList.TestEmptyCb | fs/aufs/dir.c:323-353 | one lower entry passes the test, is noted as a whiteout, or refutes emptiness |
| Emptiness.AtRestApart | fs/aufs/dir.c:323-353 | the namespace invariant gives what the emptiness tests rely on: on no branch a name beside its whiteout, the bare prefix aside |
| Emptiness.DoTestEmpty | fs/aufs/dir.c:355-386 | one branch: every entry passes, or ENOTEMPTY |
| Emptiness.TestEmpty | fs/aufs/dir.c:475-502 | it succeeds iff the merged listing is only the two dots; anything else is a lower failure |
| Emptiness.TestEmptyLower | fs/aufs/dir.c:431-473 | unless something else fails, it succeeds iff every lower entry is covered by a whiteout, and then the merged listing is the top branch's own names |
| Emptiness.DelWhChildren | fs/aufs/whout.c:736-792 | every whiteout noted on the branch is removed, or the first failure ends it; without lower failures it succeeds iff no such name stands for a directory |
| Emptiness.TopmostEmptied | fs/aufs/whout.c:736-792 | after a successful test and removal the top branch's lower directory holds no entry at all |
| VdirPack.CalcSize | fs/aufs/vdir.c:23-47 | the least room that holds header and name, in units of an inode number |
| VdirPack.ValueOfBytes | fs/aufs/vdir.c:379 | an inode number survives being stored as bytes |
| VdirPack.WalkPacked | fs/aufs/vdir.c:60-65 | walking a packed block with is_deblk_end and calc_size yields exactly the packed entries in order |
| VdirPack.LaidEnd | fs/aufs/vdir.c:349-397 | no entry crosses its block |
| VdirPack.LaidAligned | fs/aufs/vdir.c:23-47 | every entry and terminator is aligned for an inode number |
| VdirPack.PackedAppend | fs/aufs/vdir.c:349-397 | the stores of one append turn a packed block into one with the entry added |
| VdirWrite.SetDeblkEnd | fs/aufs/vdir.c:49-57 | a terminator is there afterwards in every case; what lies before it is untouched |
| VdirWrite.WriteDe | fs/aufs/vdir.c:379-382 | the bytes written are the entry, and none before it changes |
| VdirWrite.Vdir.AppendDeblk | fs/aufs/vdir.c:221-249 | one more empty block, or ENOMEM and nothing |
| VdirWrite.Vdir.AppendDe | fs/aufs/vdir.c:349-397 | the contents grow by exactly the entry; the cursor stands on a terminator again; a block is added only when the entry, or the terminator behind it, does not fit; on ENOMEM the entry is in or not, and nothing else changed |
| VdirWrite.Vdir.AppendAll | fs/aufs/vdir.c:349-397 | after any sequence of appends the blocks hold exactly what was appended, in order |
| VdirRead.CopyVdir | fs/aufs/vdir.c:589-631 | walking the copied blocks yields exactly what was appended, or nothing after an error |
| VdirRead.DirFile.SeekVdir | fs/aufs/vdir.c:693-749 | for each position handed out before: the cursor comes to stand where the same rest of the list begins, or the rest is empty |
| VdirRead.DirFile.FillDe | fs/aufs/vdir.c:751-801 | what is handed out, up to a refusal, is a beginning of what was left; each entry is passed with a position from which exactly the list from that entry on is left; the new position has the remainder |
| VdirRead.DirFile.Serve | fs/aufs/vdir.c:693-801 | any schedule of refusals and of seeks back to earlier positions gives what the same requests give on a plain list with indices for positions, entry by entry and seek by seek, and a correct log |
| VdirRead.LeftAfter | fs/aufs/vdir.c:751-801 | one more read keeps the log correct |
| VdirRead.PlayReads | fs/aufs/vdir.c:751-801 | reads one after the other get the entries one after the other, all of them once they ask for enough |
| VdirRead.PlayAgain | fs/aufs/vdir.c:693-749 | going back to where an entry was seen, or to the start, shows the list again from there |
| VdirRead.NothingLost | fs/aufs/vdir.c:693-801 | what a correct log means: the entries since a seek, with what is left now, are exactly what is left at the sought position; nothing lost, nothing repeated |
| VdirRead.ReadBack | fs/aufs/vdir.c:589-801 | end to end: whatever was appended is what any schedule of reads and seeks hands out, as from a plain list |
| Listdir.ReadDir | fs/aufs/vdir.c:411-801 | from the branches to the caller: the requests are answered as they would be on the plain list of the complete merge |
| Listdir.SeenIsFound | fs/aufs/vdir.c:411-801 | of a plain name: handed out since the start only if a lookup finds it, never twice, and once nothing is left always if a lookup finds it |
| Listdir.EnoughReads | fs/aufs/vdir.c:411-801 | reads that ask for enough hand out the whole directory in order, and a name that can be looked up is among it iff a lookup finds it |
| BranchIds.SomeFree | fs/aufs/branch.c:345-352 | pigeonhole: with at most AUFS_BRANCH_MAX branches some non-zero id is free |
| BranchIds.IdCounter.NewBrId | fs/aufs/sbinfo.c:125-137 | the loop ends although the counter wraps, with the first value behind the last one that is neither zero nor in use |
| BranchIds.Reissued | fs/aufs/sbinfo.c:125-137 | with ids 5 and 6 live and the counter at 4, deleting 5 makes 5 the next id |
| BranchTable.DoIsOverlap | fs/aufs/branch.c:151-164 | true exactly when the second directory is the first or above it |
| BranchTable.InsertAt | fs/aufs/branch.c:482-491 | the memmove and the store insert one element |
| BranchTable.RemoveAt | fs/aufs/branch.c:661-675 | the memmove deletes one element |
| BranchTable.InsertNlink | fs/aufs/dir.c:506-512 | adding a branch below the top adds its share to the recomputed link count, wherever it is put |
| BranchTable.RemoveNlink | fs/aufs/dir.c:514-520 | deleting one takes it away again |
| BranchTable.NlinkOfThree | fs/aufs/dir.c:506-520 | the recomputed link count: the top branch's own, and of each other what exceeds two, or all of it where links are not counted |
| BranchTable.RemoveMax | fs/aufs/branch.c:691-700 | deleting a branch without the largest s_maxbytes keeps the maximum |
| BranchTable.SuperBlock.FindDbindex | fs/aufs/dinfo.c:411-420 | the index of a branch root, or -1 when it is none |
| BranchTable.SuperBlock.TestAdd | fs/aufs/branch.c:326-420 | the verdict, conditions in order: duplicate, too many, bad index, unlinked, on the mount itself, on a stacked file system, writable on read-only, overlapping |
| BranchTable.VerdictIs | fs/aufs/branch.c:326-420 | the verdict in no order: what is taken, what is passed over, and what each error means |
| BranchTable.RemovedAt | fs/aufs/branch.c:661-675 | deleting a row leaves the others in order |
| BranchTable.SuperBlock.AllocAddbr | fs/aufs/branch.c:240-300 | room for one more row in all three arrays, or ENOMEM, and in both cases the same rows |
| BranchTable.SuperBlock.CpupAttrNlink | fs/aufs/cpup.c:44-68 | the link count is the fold over the live branches |
| BranchTable.SuperBlock.MaxBytes | fs/aufs/branch.c:691-700 | the recomputed maximum |
| BranchTable.SuperBlock.AddRow | fs/aufs/branch.c:468-509 | past the last failure: the row is in its place in all three arrays, with the next free id, and the attributes follow |
| BranchTable.SuperBlock.BrAdd | fs/aufs/branch.c:422-527 | the row appears at the index asked for in all three arrays with a fresh id, or nothing changes; the table invariant, that every branch is fit to be one, and the exact attributes are kept |
| BranchTable.SuperBlock.BrDel | fs/aufs/branch.c:592-712 | the row disappears from all three arrays, the last branch and one in use stay; invariant and attributes are kept; without lower failures it is refused exactly when it is the last, in use or has busy children |
| Remount.Run | fs/aufs/branch.c:422-712 | over every run the arrays stay parallel, link count and s_maxbytes equal to a recomputation; each table on the way has distinct non-zero ids, roots apart, only branches fit to be one, a number of them in bounds which once there is one never is zero again, and comes from the one before exactly as the verdict on the option says |
| Remount.RefreshRight | fs/aufs/inode.c:52-80 | after changes of the table and a refresh, each slot belongs to the branch at its index iff no id still held was issued again; a branch that stayed has its lower inode in any case |
| Remount.StaleSlot | fs/aufs/inode.c:52-80 | a table before and after in which a branch id was issued again: the refreshed inode holds for the new branch the lower inode of the deleted one |
| Slots.Find | fs/aufs/branch.c:56-67 | the first place of the key or -1 |
| Slots.SwapPlaces | fs/aufs/inode.c:71-79 | a swap strictly shrinks the set of misplaced slots: the termination measure |
| Slots.SortEnd | fs/aufs/inode.c:52-80 | when the loop ends every survivor is at the index of its branch, the rest are gone, none is lost or doubled |
| Util.Kzrealloc | fs/aufs/misc.c:27-50 | the used slots are kept, the added ones empty, on every path |
| Reindex.IInfo.Permute | fs/aufs/inode.c:52-80 | the swap loop keyed by branch id ends with exactly the surviving lower inodes, each at its branch's index, all within the widened bounds; the number of changes it reports is the number let go |
| Reindex.IInfo.AddLower | fs/aufs/inode.c:82-113 | the lower inodes only the dentry has are added at their branches, ESTALE exactly where the two disagree; the number of changes it reports is the number taken |
| Reindex.IInfo.Tighten | fs/aufs/inode.c:115-126 | bounds drawn in: every live slot lies within, bstart is live if any is, and bend is live or stays because nothing behind bstart is |
| Reindex.IInfo.Refresh | fs/aufs/inode.c:23-140 | the array part of the whole function: the survivors at their branches, those only the dentry had added up to the branch where the two disagree, and bstart live if any slot is, after an ESTALE too |
| Reindex.MapRestricted | fs/aufs/inode.c:52-80 | the map from id to lower inode is the old one restricted to the ids that are left |
| Reindex.HDentries.Permute | fs/aufs/dentry.c:472-507 | the swap loop keyed by the parent's lower dentry, with a bound that stays |
| Reindex.HDentries.Refresh | fs/aufs/dentry.c:436-532 | the array part, with bounds that are the first and last live slot |
| Reindex.FInfo.Permute | fs/aufs/file.c:486-509 | the swap loop keyed by branch pointer |
| Reindex.FInfo.Refresh | fs/aufs/file.c:447-553 | besides, what is put was without an inode, or above the branch of a mapped or unlinked file; every file left lies within the bounds, the last of them has an inode, and so has the first, or it is the pinned one's branch |
| Dcsub.Dpages.Append | fs/aufs/dcsub.c:72-106 | the pages, one after the other, grow by the dentry and its reference, a new page only when the last is full |
| Dcsub.Dpages.Free | fs/aufs/dcsub.c:61-70 | every reference taken is given back |
| Dcsub.DcsubPages | fs/aufs/dcsub.c:108-174 | the walk with two pointers ends and appends exactly what the recursive definition emits, or a beginning of it with ENOMEM |
| Dcsub.Descend | fs/aufs/dcsub.c:140-143 | going down keeps what is still to come |
| Dcsub.Ascend | fs/aufs/dcsub.c:153-157 | coming back up appends the parent again and keeps the rest |
| Dcsub.SameSet | fs/aufs/dcsub.c:108-174 | the dentries emitted are those of the recursive preorder |
| Dcsub.Collected | fs/aufs/dcsub.c:108-174 | a dentry is collected iff it is positive, in use, on this super block, not its root and wanted, and no negative dentry hides it |
| Dcsub.EmitTimes | fs/aufs/dcsub.c:108-174 | once, and once more for each child with children |
| Dcsub.RefsAre | fs/aufs/dcsub.c:72-106 | one reference for each time |
| Dcsub.EmitOrdered | fs/aufs/dcsub.c:108-174 | a dentry never comes before its parent did |
| RefreshDirs.Dcache.RefreshPages | fs/aufs/super.c:330-346 | each directory is refreshed while its parent is at the new generation, whatever fails; only collected dentries change |
| RefreshDirs.Dcache.RefreshDir | fs/aufs/super.c:311-355 | without an error every cached directory below the root is at the new generation; in any case no reference is kept |
| SlowLoops.Branch.CpupDirs | fs/aufs/cpup.c:651-732 | ends, with every ancestor on the branch; what is there is closed under parent after each step and after a failure; only ancestors were added |
| SlowLoops.Generations.RevalDpath | fs/aufs/dentry.c:705-758 | ends, with the dentry current; each refresh happens under a current parent; only the path is touched |
| CopyFile.ReadBlock | fs/aufs/misc.c:137-142 | short, interrupted and failing reads: what the outcomes in store come to, and the next bytes of the source |
| CopyFile.WriteBlock | fs/aufs/misc.c:151-166 | short and interrupted writes put all of them down, holes before them included; a failed one ends the block, and exactly the rest of it is lost |
| CopyFile.CopyFile | fs/aufs/misc.c:96-203 | for every content, block size and schedule of short, interrupted and failing calls: if no write fails the destination is the source's first len bytes, and one zero byte more iff the last read was a whole block and the last block is all zeros; if some are lost it is shorter by at least them, and no error says so |
| CopyFile.WholeReads | fs/aufs/misc.c:179-194 | when every read is whole the last block becomes a hole iff the length is a multiple of the block size and it is all zeros |
| CopyFile.TooLongSomehow | fs/aufs/misc.c:179-194 | some sequence of reads, none failing, makes the copy too long iff the last block is all zeros |
| CopyFile.OneTooLong | fs/aufs/misc.c:179-194 | sources of zeros whose copies are longer than they: by whole reads, and by a short one |
| CopyFile.DroppedWrite | fs/aufs/misc.c:151-166 | a write that fails, a copy that is shorter, and no error |
| Xino.SbInfo.Read | fs/aufs/xino.c:218-253 | the number at the position of the lower inode, none behind the end of the file |
| Xino.SbInfo.Write | fs/aufs/xino.c:157-182 | exactly that position changes, or none |
| Xino.SbInfo.NewIno | fs/aufs/xino.c:197-211 | a number in no table, until the numbers run out |
| Xino.SbInfo.FillIno | fs/aufs/vdir.c:435-455 | readdir reports the number the table has, or a fresh one it records; a zero number is passed on only when numbers ran out |
| Xino.SbInfo.SetHIptr | fs/aufs/iinfo.c:127-171 | copy-up keeps the number by writing it under the new lower inode; a failed write turns xino off |
| Xino.SbInfo.NewInode | fs/aufs/inode.c:210-308 | lookup gives the number the table has, unless the cached inode is of another generation; a new number was in no table and is no cached inode's; the inode ends up with all lower inodes of the dentry, and its number is in the table for each it gained; without lower failures it fails only where a cached inode has another lower inode on a branch, or numbers ran out |
| Xino.SbInfo.AddLower | fs/aufs/inode.c:82-113 | a cached inode gains the lower inodes it has no other for, each with its number in the table; ESTALE iff on some branch it has another one |
| Xino.SbInfo.CopyUp | fs/aufs/cpup.c:408-510 | the cached inode's own number goes under one more lower inode |
| Xino.Run | fs/aufs/xino.c:157-253 | every run with xino on throughout, readdir, lookup, copy-up and inodes dropped from the cache in any order, is a trace: the tables stay bounded by the counter, each request changes only what it may, what a cached inode gains has its number in the table, a stale inode is never what a lookup gives; without lower failures, and numbers left, exactly the lookups of a clashing inode and the copy-ups of one not cached or there already fail |
| Xino.Keeps | fs/aufs/xino.c:157-182 | a number stays while nothing touches its lower inode |
| Xino.AgreesStill | fs/aufs/iinfo.c:127-171 | over every run, cached inodes and tables go on to agree about a lower inode while nothing touches it |
| Xino.ReportsAgree | fs/aufs/xino.c:157-253 | over every run, two reports about a lower inode, by readdir or lookup, give the same number unless between them it was taken back or another aufs inode came to cover it |
| Xino.CopyUpKeeps | fs/aufs/iinfo.c:127-171 | over every run, copy-up writes the cached inode's own number for the copy, and that is the number reported for the original before and for the copy after |
| Xino.NewNumber | fs/aufs/xino.c:197-211 | over every run, a number reported for a lower inode that had none was in no table at any time before |

## Left out

- rename of a directory, and a destination directory that is moved away: its whiteouts are not looked at by the opaqueness test, so the view law is stated for non-directories.
- link and pseudo-links; setattr, read, write, mmap and truncate.
- Hash chains (whlist, delist, dehlist) are sets; only their contents matter to the callers.
- The dentry's own cached state after a rename, or after an rmdir that failed, is not described.
- Translation of di_bwh and di_bdiropq inside the swap loop of au_refresh_hdentry, and the lookup that follows it.
- Names for which the whiteout's name would be too long for a lower file system (over NAME_MAX - 4) are not plain: lookup of one fails in the lower file system, and statfs announces the shorter limit (fs/aufs/super.c:206).
- Union.Union.CpupDirs: as seen from one directory, the loop over all ancestors being in SlowLoops; the entry the new lower directory gets in its own parent is not recorded in br. It stands for the object that is visible under that name already.
- Edit.GrowKeeps: for the same reason says nothing about that entry.
- Removal.SysRmdir: the dentry of the directory has slots only where its parent holds its entry, which a copy-up makes and the runs of Namespace do not record, so rmdir is not among the calls of Namespace.Run; and no branch holds the bare whiteout prefix in the directory beside that name's own whiteout.
- OpRmdir.RenwhAndRmdir: whether emptying the directory is left to a work queue is a parameter, and the work that is left is OpRmdir.RmdirWhtmp.
- Union.Union.SimpleCreateWh: di_bwh of the dentry is not set; no later step of the calls modelled reads it.
- Union.Union.TestRo: an immutable lower inode, which also counts as read-only, is not modelled.
- OpAdd.WrDir: always adds an entry (add_entry), and is never told the branch (force_btgt); the callers that do otherwise are not modelled.
- OpAdd.SetDiropq: the opaque mark is a flag of the directory's entry, not an entry inside it, so the lookup of the mark is one that may only fail with the rest; a lower rmdir fails while it is set.
- OpRmdir.LkupWhtmp: where three temporary names are taken the kernel stops in BUG(); the error given is that of a kernel built to go on.
- OpRen.CpupSingle: the EIO for a lower inode that the aufs inode already has on the target branch is not modelled, the aufs inode being no part of the namespace model.
- Reindex.IInfo.Tighten: the upper bound is not tight when one slot is live, since the loop then leaves it alone.
- VdirRead.DirFile.SeekVdir: positions are those the code itself hands out; other seeks leave f_pos and the cursor apart.
- VdirWrite.Vdir.AppendDe: names and inode numbers only; the dehstr entry appended beside it is part of the set of known names in Readdir.
- Vdir versions, jiffies and when a cache is rebuilt.
- CopyFile.CopyFile: where in the destination the bytes that follow a lost block come to lie is bounded in length only; llseek over a hole does not fail. In the namespace model a copied-up file keeps its identity, and its bytes are no part of it.
- Xino.SbInfo.NewInode: lower inodes that a cached inode loses, when branches change or by notification, are in Reindex.
- Xino.Run: numbers and the types of entries are not part of the listing in Readdir.
- Namespace.Run: a run stops at an EIO that follows more than one lower failure, after which the code promises nothing. A directory it makes is given an identity that the run gives to no other name.
- BranchTable.SuperBlock.TestAdd: the tests for an NFS branch and for a loopback mount inside another branch are not modelled.
- Branch limits of 127, 511 and 1023, which change two constants; the WARN_PERM warnings; br_mod.
- Whether test_children_busy finds a busy child is a parameter; init_br_wh and xino_init are any error or none.
- RefreshDirs.Dcache.RefreshDir: relies on what the dentry cache provides: a directory with cached children is referenced, and each child names it as its parent.
- Locking, work queues, delegation, NFS, hinotify, sysaufs, mount options, permission bits and times.
