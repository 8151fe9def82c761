# XCPFS

A model of XCPFS, a log-structured file system for zoned drives: every block is appended to an open
zone, node pages and their addresses form per-file trees, and the node address table (NAT) that says
where node pages live is itself a file whose own nodes are found through the table.

| file | what it models |
|---|---|
| `Layout.dfy`, `BlockPath.dfy`, `NodeTree.dfy` | sizes, block addressing (`get_path`) and the node trees as a flat sparse map |
| `NatCache.dfy`, `NatStore.dfy`, `NatFs.dfy` | the two-list NAT cache, the self-hosted table, lookup, allocation and the node walk, which call each other |
| `ZoneTable.dfy`, `ZoneAlloc.dfy`, `ZoneManager.dfy` | zone states, slot arrays and counters, the zone search, and the code on arrays |
| `WritePipeline.dfy`, `Xio.dfy`, `RestartFuel.dfy`, `Coupling.dfy`, `Unlink.dfy` | submit, append and complete in any interleaving; what a write costs; the pipeline's addresses as those of table and trees, also when a direct node is unlinked |
| `Joint.dfy`, `FreshStart.dfy` | pipeline, table and trees as one machine; the first mount of a fresh image |
| `Recovery.dfy`, `Writeback.dfy`, `Steps.dfy`, `Checkpoint.dfy`, `Mount.dfy` | what can be read from the superblock, write-back, the three-phase checkpoint with its restart loop and log, crash and mount |
| `Serving.dfy`, `Serial.dfy`, `CheckpointRun.dfy` | one page written after the other by the pipeline; a checkpoint as a run of the whole machine |
| `Lifetime.dfy` | from one mount to the next |
| `Views.dfy`, `Remounting.dfy`, `Witness.dfy` | runs from a fresh image to states at which exact conditions fail |
| `Truncate.dfy`, `Directory.dfy` | truncation through direct nodes, directory slots |

State that the code updates in place is held in classes (`Nat`, `Manager`, `Engine`, `Checkpointer`,
`Truncator`, `Dir`) whose methods are tied to functions and predicates on values; the properties are
lemmas about those.

How the parts meet. `FreshStart` builds the state of the first mount and shows that it satisfies the
hypotheses of everything below. `Joint` runs pipeline, table and node trees as one machine: its
invariant `Joint.Ok` holds on a mount (`Joint.MountedOk`) and over every run (`Joint.RunOk`).
`Checkpoint.Checkpointer.DoCheckpoint` ends in a state that satisfies `Recovery.Synced` under an exact
condition; `Recovery.DiskHoldsTree` reads such a state back from the superblock; `Mount.FromDisk` is what
a mount reads from a drive and its log, and nothing else, and `Lifetime.NextMountOk` closes the cycle:
checkpoint, any run, crash, mount, and the machine starts again, however often
(`Lifetime.CrashesKeepCheckpoint`). The checkpoint writes to a `Drive`; `RestartFuel.WriteIsAppend` shows
that submission, append and completion in the zone manager's pipeline are such a drive, and
`CheckpointRun.CheckpointIsRun` that a whole checkpoint is a run of the joint machine.

Hypotheses. The drive appends only inside a zone's capacity, to a block never written before, and may
refuse to open a zone. One write per page is in flight (`data.c:235-238`), and a data write holds its
node page until it completes (`xio.c:184`, `xio.c:53`). An empty zone from 2 on exists when one is
needed (`ZoneAlloc.SuperblockZoneTaken` shows what happens otherwise). A mount finds only published
blocks marked, counts equal to bits, and no zone reported empty that holds a block
(`WritePipeline.MountOk`); it need not find published blocks marked, nor pages in zones of their type.

Where the code does less than its comments or its callers intend, the model follows the code and says
exactly when it still works:

- `__insert_nat` drops its `dirty` argument, so replayed entries are clean and the next checkpoint
  does not write them (`nat_mgmt.c:25`, `xcpfs.c:136`): `Mount.RemountStaleIff`,
  `Lifetime.SecondCheckpointIff`, and an update that an idle mount takes back in
  `Witness.IdleMountRollsBack`.
- The replay assigns where it means to compare, `if(err = -EEXIST)`, and the update does not look at
  free entries, so a first logged 0 sticks (`xcpfs.c:137`): `Mount.MountViewIff`.
- Reading an unwritten table block from 900 on creates nodes that are never written
  (`nat_mgmt.c:12`): `Mount.RemountCoreIff`, with the lookup of `Witness.LookUpHigh` and the run of
  `Witness.NeverWrittenNodeIsLost`.
- A mount need not find the bits of inherited blocks (a fresh image has no zone information table,
  `xcpfs.c:163-166`), and invalidating such a block takes its zone's count below its bits
  (`zone_mgmt.c:301-320`): `WritePipeline.HeldMarkedIff`, `WritePipeline.CountIff`.
- The root inode is a meta node that `mkfs` puts in a zone typed for regular nodes (`meta.c:7-9`,
  `mkfs/mkfs.c:94`, `xcpfs.c:209`): `WritePipeline.TypedIff`, `WritePipeline.SubmitTypedIff`, with
  `FreshStart.RootGoesAstray`.
- First writes invalidate block 0, so zone 0's count is a sink and is left out of the accounting
  (`zone_mgmt.c:415`).
- `invalidate_nat` leaves the validity bit of the node's block set: `WritePipeline.DropExactIff`, and
  over runs `WritePipeline.RunExactIff`.
- Truncation one slot into a direct node frees a node with a live block, and after a cut inside the
  first direct node the second is cut at the wrong place: `Truncate.TruncatesRightIff`; the live block's
  bit then leaks: `Joint.UnlinkLeaks`.
- Opening an implicitly open zone enters it twice: `ZoneTable.OpenKeepsInv`.
- Finish and reset store a write pointer that is not absolute, and the zone search compares an offset
  with an absolute position (`zone_mgmt.c:215`, `zone_mgmt.c:238`, `zone_mgmt.c:367-368`): modelled as
  written, no minimum is claimed.
- `..` is stored with the directory's own number (`dir.c:213`).

## Model

| member | source | states |
|---|---|---|
| `BlockPath.Path` | meta.c:19-65 | Addressing is total on block indices, the weighted sum of its slots gives the index back, and the path lies inside the tree exactly for indices below 900 + 2·1018 + 2·1018² + 1018³. |
| `BlockPath.PathOfIndex` | meta.c:19-65 | Every in-range path of depth 0 to 3 is the path of its own weighted sum: with `Path`, a bijection. |
| `BlockPath.SameIndexSamePath` | meta.c:19-65 | Two in-range paths with the same weighted sum are the same path, whatever their depths. |
| `BlockPath.GetPath` | meta.c:19-65 | The 32-bit code fills the array with exactly the mixed-radix path and -1 beyond it, with no overflow, for every index up to LAST_SAFE_INDEX, 2146450258. |
| `BlockPath.LastSafe` | meta.c:37-62 | The 32-bit sums of the rounding fit if and only if the index is at most 2146450258: the next one overflows. |
| `BlockPath.PeelOff` | meta.c:57-62 | The round-up-and-subtract arithmetic of the deepest level yields the three base-1018 digits inside 32 bits. |
| `NodeTree.LinkWalk` | meta.c:157-171 | Hanging a new node under an empty slot changes the walk to that slot and no other walk of any file. |
| `NodeTree.LinkAddr` | meta.c:157-171 | Growing a tree changes no block address of any file. |
| `NodeTree.LinkKeepsForest` | meta.c:157-171 | After a node is hung, still no node is reached twice, from two files or along two ways. |
| `NodeTree.StoreAddrAt` | xio.c:42-53 | Storing an address at the end of a path updates the flat sparse map at that block of that file only. |
| `NodeTree.StoreKeepsForest` | xio.c:42-53 | Publishing a block address keeps the node trees a forest. |
| `NatCache.InsertRefines` | nat_mgmt.c:16-42 | Inserting keeps each nid on at most one list and the counter exact, and is: known nids unchanged, others join the list their address chooses, clean. |
| `NatCache.UpdateRefines` | nat_mgmt.c:87-108 | An update reaches only nids on nat_list, moves a changed entry to the front and makes it dirty; order aside it is a map update, and the lists stay sane. |
| `NatCache.UpdateMovesFront` | nat_mgmt.c:87-107 | A changed entry becomes the head of nat_list, dirty and pinned as told, the others keeping their order; with the same address nothing changes. |
| `NatCache.RemoveRefines` | nat_mgmt.c:54-73 | Removal takes exactly one nat_list entry and one from the counter. |
| `NatCache.RemoveKeepsView` | nat_mgmt.c:54-73 | Dropping a cached entry leaves every nid's address as believed if and only if the table page already shows it. |
| `NatCache.InvalidateRefines` | nat_mgmt.c:192-202 | The in-place invalidation is a map update on whichever list holds the nid. |
| `NatCache.TakeFreeRefines` | nat_mgmt.c:205-221 | Handing out moves one entry from free_nat to nat_list, keeping both lists sane and the count. |
| `NatCache.LastInFirstOut` | nat_mgmt.c:16-42 | A nid inserted without an address is the next one of its range to be handed out; of the other range the same one as before. |
| `NatCache.FirstFreeExists` | nat_mgmt.c:205-221 | If a nid of the wanted range is on free_nat the scan finds one. |
| `NatFs.Nat.LookupCached` | nat_mgmt.c:122-145 | The two scans return the entry of the nid from whichever list has it, or nothing. |
| `NatFs.Nat.InsertNat` | nat_mgmt.c:16-42 | The list state afterwards, and success exactly if the nid was unknown. |
| `NatFs.Nat.UpdateNat` | nat_mgmt.c:87-108 | The list state afterwards, and success exactly if the nid was on nat_list. |
| `NatFs.Nat.RemoveNat` | nat_mgmt.c:54-73 | The list state afterwards, and success exactly if the nid was on nat_list. |
| `NatFs.Nat.FreeNatEmpty` | nat_mgmt.c:205-221 | The first free entry of the range moves to the head of nat_list; nothing changes if there is none. |
| `NatFs.Nat.LookupNat` | nat_mgmt.c:147-190 | Terminates although the table is itself a file; returns the cached entry, or, with every nid of table page nid / 455 but 0 to 2 then cached, an entry with the address in slot nid % 455 of that page; changes no belief about any nid and no block address; below nid 409500 it creates nothing. |
| `NatStore.CacheBlockEntry` | nat_mgmt.c:174-184 | Caching a table page gives each nid it did not know, 455 * page + slot, a clean entry with the slot's inode and address, on nat_list exactly if the address is not 0. |
| `NatStore.NidsAre` | xcpfs.h:251-253 | The nids in circulation are 1, 3 to 409499 and 2730000 to 272999999. |
| `Layout.TableSlotFits` | xcpfs.h:170-180 | A slot number is inside a table page of 4096 bytes, with entries of 9, if and only if it is below the number of entries per page. |
| `Layout.EntryPlace` | nat_mgmt.c:171-182 | The entry of nid n lies on table page n / 455 in slot n % 455, inside the page; the nids from 2730000 on are those of the pages from 6000 on. |
| `Layout.EntriesApart` | nat_mgmt.c:276-282 | Entries whose bytes overlap on a page are of the same nid. |
| `Layout.NodeSlotFits` | xcpfs.h:117-145 | A slot number fits a direct or indirect node, before its footer of 24 bytes, if and only if it is below 1018. |
| `NatFs.Nat.ReadRawNatBlock` | nat_mgmt.c:6-14 | Terminates and returns the table page, growing the table file's own tree from low nids only where it is missing; blocks below 900 need inode 1 alone. |
| `NatFs.Nat.PrepareMetaPage` | data.c:73-125 | Reading or creating a page of the table file leaves its node page in place and says whether the page has no address yet. |
| `NatFs.Nat.GetNodePage` | meta.c:68-75 | A node page is returned with its table entry cached and no tree changed, but for what the lookup of a high nid adds to the table file. |
| `NatFs.Nat.GetDnodePage` | meta.c:90-181 | With create the node of the block is reached, without it exactly when it exists; `need` is exact; no other index of any file moves; trees stay a forest of distinct handed-out nids; a later walk reaches the same node; every node of the way that was missing now has an entry that names the file, without an address, unpinned and dirty. |
| `NatFs.Nat.AllocFreeNat` | nat_mgmt.c:223-262 | While a free nid of the range remains the scan ends and hands out one of that range that was not in use, changing no belief. |
| `NatFs.Nat.InvalidateNat` | nat_mgmt.c:192-202 | The nid's address becomes 0 and its entry dirty; every other nid keeps its address and no nid in use becomes free. |
| `NatFs.Nat.NewInode` | inode.c:208-229 | A fresh regular nid becomes an inode that owns itself, all its blocks are holes, and the table's invariant holds with the new file. |
| `NatStore.NeverTwice` | nat_mgmt.c:205-262 | A nid on nat_list cannot be handed out as long as nat_list only grows, which is what every operation but a removal does. |
| `Joint.NeverTwiceInRun` | nat_mgmt.c:205-262 | A nid handed out in a mount is never handed out again, whatever writes complete, entries are flushed, addresses are invalidated, blocks truncated, direct nodes unlinked, files created or nodes walked to in between. |
| `Joint.HandsOutUnshownIff` | nat_mgmt.c:205-262 | Over every run of the mount no nid is ever handed out whose table page shows an address, if and only if no free entry of the cache has one at the start. |
| `Mount.RemountUnshownIff` | xcpfs.c:131-141 | A mount starts so if and only if every nid that was first logged with address 0 has address 0 on its table page. |
| `Mount.RemountUnshown` | xcpfs.c:131-141 | After a checkpoint pass that left inode 1 and the root written, every mount starts so. |
| `NatStore.ExtendsUnshown` | nat_mgmt.c:16-42 | Lookups and walks add to the free list only nids whose page shows no address. |
| `NatStore.ReadLeavesClean` | nat_mgmt.c:6-14 | A read of a table block from 900 on that had no node page hangs one which is empty, keeps its nid's address and is no dirtier than before. |
| `NatStore.LinkStore` | meta.c:157-171 | Linking a handed-out nid keeps the table's invariant and every address, and makes the walk to the new slot reach it. |
| `NatStore.AdoptStore` | meta.c:157-171 | Allocate, link and set up the entry, taken together, keep the invariant and the supply of low nids the table file may still need. |
| `NatStore.SupplyGivesFree` | nat_mgmt.c:223-262 | As long as a node of the table file is missing, some low nid is free to become it. |
| `NatStore.NewFileStore` | inode.c:208-229 | A new inode disturbs no tree, no address and no belief. |
| `FreshStart.AbsentFew` | meta.c:19-65 | The table file never needs more than 1021 nodes besides its inode. |
| `FreshStart.SupplyIfFree` | nat_mgmt.c:223-262 | 1021 free low nids are enough for every allocation the table file can ask for. |
| `FreshStart.FirstMountHolds` | mkfs/mkfs.c:57-145 | On the first mount of the image as mkfs lays it out on a drive of any zone size, nids 1 and 3 logged and the root's two blocks mapped, every hypothesis of the lookup, allocation and checkpoint theorems holds, and exactly nids 1 and 3 are stale. |
| `FreshStart.FreshCheckpointed` | mkfs/mkfs.c:124-146 | Whatever the zone size, the image is a complete checkpoint of that first mount: superblock, log, node pages and blocks describe all of memory. |
| `FreshStart.FirstCheckpointer` | checkpoint.c:31-44 | A checkpointer set up on the first mount is valid: memory and drive agree on everything. |
| `FreshStart.FreshMountOk` | xcpfs.c:207-211 | The zones of a fresh image, typed and limited as the mount does it, meet what the pipeline asks of a mount, for any zone size, zone count and number of open and active zones that hold the image. |
| `FreshStart.FreshJointOk` | xcpfs.c:88-145 | On such a fresh image table, trees and pipeline start together in a state all run theorems accept, with exact accounting. |
| `FreshStart.RootGoesAstray` | mkfs/mkfs.c:94 | On the fresh image of every such drive the root inode's page, a meta node, lies in zone 5, a zone for regular nodes; its first rewrite stays there and leaves that zone's count at -1 with no bit set. |
| `ZoneTable.OpenKeepsInv` | zone_mgmt.c:133-170 | Slots, counters and conditions still match after an open if and only if it did not succeed on an implicitly open zone. |
| `ZoneTable.CloseKeepsInv` | zone_mgmt.c:172-194 | Closing keeps slots, counters and conditions matching. |
| `ZoneTable.OpenMoves` | zone_mgmt.c:133-170 | Opening succeeds if and only if the zone is explicitly open already, or both arrays have a free slot and the drive agrees; then exactly this zone joins the open and the active zones, and only its condition changes; otherwise nothing changes. |
| `ZoneTable.CloseMoves` | zone_mgmt.c:172-194 | Closing succeeds if and only if the zone is explicitly open and the drive agrees; then it leaves the open zones and stays active; otherwise nothing changes. |
| `ZoneTable.FinishMoves` | zone_mgmt.c:196-219 | Finishing succeeds if and only if the zone is not empty and the drive agrees; then it is full, in neither set, its write pointer the bare capacity; otherwise nothing changes. |
| `ZoneTable.ResetMoves` | zone_mgmt.c:221-242 | Resetting succeeds if and only if the drive agrees; then the zone is empty, in neither set, its write pointer 0; otherwise nothing changes. |
| `ZoneTable.DropKeepsInv` | zone_mgmt.c:196-242 | Leaving both arrays for FULL or EMPTY keeps slots, counters and conditions matching (finish, reset, and the last block of a zone). |
| `ZoneTable.ValidateKeepsInv` | zone_mgmt.c:271-299 | Validating a block, even the last of a zone, keeps slots, counters and conditions matching. |
| `ZoneTable.CountersBounded` | zone_mgmt.c:145-165 | Both counters stay within their maxima, and below the maximum an insert finds an empty slot. |
| `ZoneTable.RunKeepsInv` | zone_mgmt.c:133-320 | Over every run: each zone is in the opened array once exactly if open, in the active array once exactly if open or closed, and the counters count the slots. |
| `ZoneTable.NoImplicitOpens` | zone_mgmt.c:133-170 | If no zone is implicitly open at mount, none ever becomes so and no open is a double one. |
| `ZoneTable.ValidateCommutes` | zone_mgmt.c:271-299 | Two completions give the same whole table in either order. |
| `ZoneTable.CompletionOrder` | zone_mgmt.c:271-299 | Any permutation of the completed blocks gives the same bitmaps, counts, write pointers, conditions, slot arrays and counters. |
| `ZoneTable.FullIffLastBlock` | zone_mgmt.c:291-295 | A zone turns FULL if and only if its last block is among the completed ones. |
| `ZoneManager.Manager.ReportZones` | xcpfs.c:23-45 | The report callback over all zones builds arrays and counters that satisfy the invariant, with the reported zones. |
| `ZoneManager.ReportedInv` | xcpfs.c:38-43 | Arrays packed in report order hold each open or active zone exactly once. |
| `ZoneManager.Manager.ZoneOpen` | zone_mgmt.c:133-170 | The array code has exactly the effect and return value of the open step the invariant lemmas are about. |
| `ZoneManager.Manager.ZoneClose` | zone_mgmt.c:172-194 | The array code is exactly the close step. |
| `ZoneManager.Manager.ZoneFinish` | zone_mgmt.c:196-219 | The array code is exactly the finish step, non-absolute write pointer included. |
| `ZoneManager.Manager.ZoneReset` | zone_mgmt.c:221-242 | The array code is exactly the reset step, non-absolute write pointer included. |
| `ZoneManager.Manager.ValidateBlkaddr` | zone_mgmt.c:271-299 | The array code is exactly the validation step whose order is irrelevant. |
| `ZoneManager.Manager.InvalidateBlkaddr` | zone_mgmt.c:301-320 | The array code is exactly the invalidation step. |
| `ZoneManager.Manager.GetEmptyZone` | zone_mgmt.c:322-335 | The scan returns an empty zone from 2 on with no empty zone before it, or 0 when no zone from 2 on is empty. |
| `ZoneAlloc.GetEmptyFinds` | zone_mgmt.c:322-335 | Zone 0 comes back exactly when no zone from 2 on is empty. |
| `ZoneManager.Manager.ScanOpened` | zone_mgmt.c:360-374 | The slot scan returns the last of the slots it takes, and nothing if it takes none: first the first slot of the type whose wp - start, modulo 2^64, is below LONG_MAX, then always the next one whose wp - start is below the absolute write pointer of the one before, until none is left. |
| `ZoneAlloc.WinnersUnique` | zone_mgmt.c:360-374 | Which slots the scan takes is determined by that description. |
| `ZoneAlloc.ScanIsExact` | zone_mgmt.c:360-374 | The scan finds nothing if and only if no open zone has the type, and what it finds is open and of the type. |
| `ZoneManager.Manager.GetZone` | zone_mgmt.c:352-390 | The retry loop ends whenever it can settle, in a zone of the type that stands in the array of opened zones. The counter of the type grows if and only if a slot is free and the counter is below its limit or no opened zone has the type; otherwise the table is unchanged. No other counter moves. |
| `ZoneAlloc.GetZoneTakesNew` | zone_mgmt.c:359-388 | The same for the specification, and the restart flag is raised if and only if the counter grew under the checkpoint's lock. |
| `ZoneAlloc.GetZoneOpensFirst` | zone_mgmt.c:378-388 | When a new zone is due and slots are free, the first empty zone is opened for the type at the first open the drive grants, no other zone changes, and the counter grows by one for every try, the refused ones included. |
| `ZoneAlloc.GetZoneRefused` | zone_mgmt.c:378-388 | Below the limit and refused, while a zone of the type is open: the first empty zone gets the type and is counted without being opened, and another zone is returned. |
| `ZoneAlloc.HaltsIff` | zone_mgmt.c:352-390 | The retry loop ends if and only if an open zone of the type exists, or there is a free slot and a zone that is open or that the drive will at some point agree to open. |
| `ZoneAlloc.StopsOnce` | zone_mgmt.c:352-390 | The pass at which the loop stops is unique, so its outcome is well defined. |
| `ZoneAlloc.GetZoneShape` | zone_mgmt.c:352-390 | The zone returned is open and of the type; the table changes only by opening one empty zone for it, or by counting attempts the drive refused. |
| `ZoneAlloc.SuperblockZoneTaken` | zone_mgmt.c:379-384 | When no empty zone is left and zone 0 is open, the search retypes superblock zone 0 and returns it: why an empty zone must be assumed. |
| `ZoneAlloc.GetZoneKeepsLimits` | zone_mgmt.c:357-384 | The open zones of a type never pass the larger of its limit and one. |
| `ZoneAlloc.GetZoneBurnsFuel` | zone_mgmt.c:379-388 | Every search that changes the table, and so every one that asks for a restart, lowers a fixed bound: empty zones plus unused type limits. |
| `ZoneManager.Manager.AllocZone` | zone_mgmt.c:392-420 | The array code picks the zone and drops the old block exactly as the submission step of the pipeline. |
| `WritePipeline.AllocTable` | zone_mgmt.c:392-420 | The zone chosen is never FULL; for a first write, or out of a full zone, it is of the page's type and not 0 or 1, otherwise it is the old block's zone, whatever its type and bits; only the old block's bit is lost and only an empty zone changes type. |
| `WritePipeline.SubmitSafe` | xio.c:102-195 | Submission keeps the accounting of a mount that may have found blocks unmarked and pages in zones of another type: settled blocks marked unless found unmarked, owned once, in a zone of their type unless found astray, counts equal to bits less what was invalidated unmarked. |
| `WritePipeline.LandSafe` | xio.c:132-136 | A fresh append keeps the same. |
| `WritePipeline.CompleteSafe` | xio.c:20-57 | Publishing the returned address and validating it keeps the same. |
| `WritePipeline.TruncateSafe` | file.c:89-111 | Clearing a slot and invalidating its block, inherited unmarked ones included, keeps the same. |
| `WritePipeline.DropSafe` | nat_mgmt.c:192-202 | Dropping the address of a node, or of a block below a node that goes, keeps the same. |
| `WritePipeline.RunSafe` | xio.c:20-195 | Over every interleaving of submits, appends, completions, truncations and invalidations, from any mount: no two owners share a block, nothing lands in zones 0 or 1, every settled block is marked exactly if the mount did not find it unmarked, lies in a zone of its type exactly if it is not where the mount found it astray, and what the mount found is a constant of the run. |
| `WritePipeline.HeldMarkedIff` | zone_mgmt.c:271-320 | A block a settled page holds has its bit if and only if the mount did not find it unmarked. |
| `WritePipeline.CountIff` | zone_mgmt.c:301-320 | A zone's count equals its bits if and only if no block found unmarked was ever invalidated in it. |
| `WritePipeline.TypedIff` | zone_mgmt.c:405-409 | A page lies in a zone of its type if and only if that zone is not the one the mount found it astray in. |
| `WritePipeline.KindsApart` | meta.c:3-13 | At every moment of every run, two published blocks in one zone are of the same kind, but for pages mounted astray: pages of nids below 2730000, of other nids, blocks of inode 1, blocks of other files; the zone's type is then 1, 3, 2 or 4. |
| `WritePipeline.StraysAtMount` | meta.c:3-13 | A mount finds a page astray if and only if its block lies in a zone whose type is not the number of the page's kind, or that is empty or a superblock zone. |
| `WritePipeline.SubmitKind` | xcpfs.h:315-322 | A first write, and a rewrite out of a full zone, goes to a zone that is not full and has the number of the page's kind. |
| `WritePipeline.SubmitTypedIff` | zone_mgmt.c:392-420 | A write goes to a zone of the page's type if and only if the page was not astray or its zone is full. |
| `WritePipeline.RunExactIff` | xio.c:20-195 | Over every run the accounting, bit set exactly when a settled page holds the block, ends exact if and only if no invalidation on the way leaked. |
| `WritePipeline.LeakStaysForever` | nat_mgmt.c:192-202 | A leaked block stays marked and unowned over every run: it is never invalidated, appended to or owned again. |
| `WritePipeline.ExactMeans` | zone_mgmt.c:271-320 | Exact accounting means: the bit is set if and only if the mount did not find the block unmarked and a settled page holds it, and one page only. |
| `WritePipeline.DropExactIff` | nat_mgmt.c:192-202 | Dropping an address keeps the accounting exact if and only if no settled block held there was marked: otherwise the bit leaks. |
| `WritePipeline.MountExact` | xcpfs.c:23-74 | Whatever blocks, bits and zone types a mount finds, the accounting starts exact, relative to the blocks found unmarked and the pages found astray. |
| `WritePipeline.MountAgain` | xcpfs.c:23-74 | What was published at any moment of a run meets the conditions of the next mount, with clean arrays, on any drive that only grew. |
| `WritePipeline.RunWithinLimits` | zone_mgmt.c:357-384 | Over every run the open zones of a type pass the larger of its limit and one by at most what they exceeded the type's counter by at mount. |
| `WritePipeline.RunAppendsOnly` | xio.c:132-136 | No run overwrites or forgets a block the drive already holds. |
| `Xio.Engine.SubmitXio` | xio.c:102-195 | Submission on the manager's arrays is the pipeline's submit step; a first write, and a rewrite out of a full zone, is queued for a zone of type 1 for nodes of nids below 2730000, 2 for blocks of inode 1, 3 for other nodes, 4 for other blocks. |
| `Xio.Engine.WriteEndIo` | xio.c:20-67 | Completion on the manager's arrays is the pipeline's complete step. |
| `RestartFuel.WriteIsAppend` | xio.c:20-195 | Submit, append and complete together are one write to a fresh nonzero address that raises the restart flag if and only if it burns fuel: what the checkpoint assumes of its drive. |
| `RestartFuel.RaisesFlag` | zone_mgmt.c:379-388 | A submission raises the restart flag if and only if it counts a new zone of its type while the checkpoint holds its lock. |
| `RestartFuel.RunBurnsFuel` | zone_mgmt.c:379-388 | Over every run the submissions that raise the restart flag number at most the initial fuel. |
| `Coupling.CoupledInFlight` | xio.c:102-195 | Writes in flight publish nothing. |
| `Coupling.CoupledNode` | xio.c:33-40 | Completing a node write in the pipeline is exactly the table update: afterwards the published addresses are again those of the table and the slots. |
| `Coupling.CoupledBlock` | xio.c:41-55 | Completing a block write in the pipeline is exactly the store into the slot on its path. |
| `Coupling.CoupledTruncate` | file.c:86-93 | Truncating a block in the pipeline is exactly clearing its slot. |
| `Coupling.CoupledDrop` | nat_mgmt.c:192-202 | Invalidating a cached nid in the pipeline is exactly dropping its address in the table. |
| `Coupling.CoupledExtends` | meta.c:90-181 | Walks, lookups and allocations keep the pipeline's addresses and the trees' the same. |
| `Coupling.CoupledFlush` | nat_mgmt.c:276-283 | So does copying an entry to its page. |
| `Unlink.UnlinkStore` | file.c:98-108 | Clearing the link to a direct node keeps the table's invariant; that walk and the addresses below it go, no other walk or address changes. |
| `Unlink.CoupledUnlink` | file.c:98-108 | In the pipeline it is dropping the addresses of all blocks below the link. |
| `Unlink.UnlinkExactIff` | file.c:98-108 | It keeps the accounting exact if and only if no marked block is still mapped below the link. |
| `Coupling.CoupledNewFile` | inode.c:208-229 | So does a new inode, which publishes nothing. |
| `Coupling.NoSharedBlock` | xio.c:20-67 | When both sides agree, no block is referenced by two table entries, by two slots of node pages, or by an entry and a slot. |
| `Joint.MountedOk` | xcpfs.c:88-145 | A mount the table and the pipeline accept starts the joint machine right, with the pipeline's addresses those of table and trees. |
| `Joint.RunOk` | xio.c:20-195 | Over every run of the joint machine, writes interleaved with walks, allocations, flushes of dirty entries, new files, truncations, unlinked direct nodes and invalidations: the table's invariant, the pipeline's, and their agreement all hold, and nat_list only grows. |
| `Joint.UnlinkLeaks` | file.c:98-108 | Unlinking a direct node with a marked block still mapped below it leaks that block for good, as truncation to 901 blocks does with block 900: it stays marked and unowned over every later run. |
| `Joint.UnlinkAccountsIff` | file.c:98-108 | From a state with exact accounting, unlinking keeps it exact if and only if every block mapped below was found unmarked at mount. |
| `Joint.RunSharesNothing` | xio.c:20-67 | Over every such run no block is referenced twice, by entries or slots. |
| `Joint.RunAccounts` | zone_mgmt.c:271-320 | Over every such run in which nothing dropped leaks, a block outside zone 0 is marked if and only if the mount did not find it unmarked and a table entry or a slot not being rewritten holds it. |
| `Joint.RunProjects` | xio.c:20-195 | The pipeline's part of a joint run is a run of the pipeline, so all its theorems apply. |
| `Writeback.TrackedExtends` | meta.c:90-181 | Walks, lookups and allocations leave every clean page equal to the block it was written to. |
| `Writeback.TrackedNode` | xio.c:33-40 | After a node is written, every clean page still equals its block, the node included. |
| `Writeback.TrackedBlock` | xio.c:41-55 | After a file or table block is written, every clean page still equals its block, and its node page is dirty. |
| `Writeback.NodeWrittenStore` | nat_mgmt.c:87-108 | Publishing a node's address changes what is believed about that nid only and leaves no new stale entry. |
| `Writeback.BlockWrittenStore` | xio.c:41-55 | Publishing a block's address changes that address of that file only, no walk and no belief. |
| `Writeback.FlushedStore` | nat_mgmt.c:276-283 | Copying an entry to its page changes that slot of the table only and no belief. |
| `Writeback.TrackedCut` | file.c:86-93 | Truncating a block keeps every clean page equal to its block; the hole reads as zeroes. |
| `Writeback.HoleReadsZero` | data.c:108-115 | A clean block without an address reads as zeroes. |
| `Checkpoint.Checkpointer.CpAppendNat` | checkpoint.c:3-16 | The log grows by the entry given, at its end. |
| `Checkpoint.Checkpointer.CreateFile` | inode.c:208-229 | A new file is empty, and memory and disk still agree on everything clean. |
| `Checkpoint.Checkpointer.WriteFile` | data.c:127-197 | A write changes that block in memory only, moves no address, and leaves the page dirty with a way to its address. |
| `Checkpoint.Checkpointer.CutBlock` | file.c:86-93 | Truncating a block clears its slot and no other address of any file, memory forgets it, and memory and disk still agree on everything clean. |
| `Checkpoint.Checkpointer.AppendNode` | xio.c:102-138 | A node write publishes a nonzero fresh address for that node and nothing else; the restart flag is up afterwards if and only if it was before or the write opened a zone. |
| `Checkpoint.Checkpointer.WriteNode` | xio.c:33-40 | Writing a node cleans it and in phase 2 keeps the log equal to the beliefs; no stale entry appears. |
| `Checkpoint.Checkpointer.WriteBlock` | xio.c:141-195 | Writing a block cleans it, changes no belief, dirties only node pages; for the table file only low ones. |
| `Checkpoint.Checkpointer.FlushNat` | nat_mgmt.c:264-289 | Afterwards slot i of table page b holds the inode and address of the entry of nid 455 * b + i if that entry was on nat_list and dirty when the flush began, and otherwise what it held; those entries are clean, other entries as before, beliefs unchanged, although reading pages may allocate nids meanwhile. |
| `Checkpoint.Checkpointer.SyncInodes` | checkpoint.c:59 | Ends, with no file block dirty, in whatever order pages are met; the restart flag as with the nodes. |
| `Checkpoint.Checkpointer.WriteNodes` | checkpoint.c:60-72 | Exactly the dirty nodes of the range are written, whatever the order; the restart flag is up afterwards if and only if it was before or a zone was opened. |
| `Checkpoint.Checkpointer.WriteNatPages` | checkpoint.c:70-71 | Exactly the dirty table pages of the range are written, no belief changes, only low nodes become dirty; the restart flag as with the nodes. |
| `Checkpoint.Checkpointer.Phase1` | checkpoint.c:51-60 | No file block and no regular node is dirty afterwards, and no new stale entry; the restart flag is up if and only if it was before or the phase opened a zone. |
| `Checkpoint.Checkpointer.Phase2` | checkpoint.c:67-72 | Nothing is dirty; each nid is in the log with its address, or its page shows its address if and only if it was not stale when the phase began; the restart flag as in phase 1. |
| `Checkpoint.Checkpointer.Phase3` | checkpoint.c:75-76 | The same holds with nids 1 and 3 logged in any case. |
| `Checkpoint.SyncedIff` | checkpoint.c:67-76 | After a pass the superblock, its log over the table pages, describes all of memory if and only if every nid was logged, or left right by an older log, or not stale. |
| `Checkpoint.Checkpointer.DoCheckpoint` | checkpoint.c:32-84 | The restart loop ends with the first pass that opens no zone, so after one pass if and only if none is opened at all, and within one pass more than zones can be opened; the log holds that pass and, only if it was the first and no restart was pending, the log from before; nothing is dirty; disk and memory agree if and only if every nid survives the last pass; with a fresh log, no stale nid besides 1 and 3 at the start is enough. The log has one entry for each low node the pass wrote and two more, so it fits its page if and only if at most 310 were written, leftovers included. Memory and drive at the end come out of those at the start by lookups, flushes and single writes, and the last log agrees with memory. |
| `Checkpoint.LogEntryFits` | xcpfs.h:64-88 | An entry of 13 bytes fits the superblock page behind its header of 30 if and only if its number is below 312. |
| `CheckpointRun.CheckpointIsRun` | checkpoint.c:31-85 | Whenever the pipeline can serve the writes of a checkpoint that ended with a complete log, the checkpoint is a run of the joint machine to a state that is right and that the log describes. |
| `Serial.Serve` | xio.c:102-195 | While the drive has room, any dirty page can be written by a submit, an append and a completion, which publish a fresh address and keep memory and drive in agreement; a rewrite opens no zone. |
| `Recovery.DiskHoldsTree` | checkpoint.c:55-79 | From the superblock alone, through the self-hosted table and the node trees, every block of every file reads as memory held it. |
| `Recovery.CrashKeepsTree` | xio.c:20-195 | The same after any later run of the pipeline, cut off anywhere. |
| `Recovery.SyncedGrows` | xio.c:132-136 | Appending blocks leaves the superblock's description right. |
| `Mount.ReadSuper` | xcpfs.c:131-141 | The replay loop has exactly the effect of inserting and then always updating, entry by entry, nid 0 skipped. |
| `Mount.MountedIs` | xcpfs.c:131-141 | After the replay an unlogged nid is uncached, one first logged with 0 is free, any other has its last logged address and is dirty if and only if the log moved it. |
| `Mount.MountedIno` | xcpfs.c:131-141 | A replayed entry is pinned and names the inode of the first entry logged for its nid. |
| `Mount.MountViewIff` | xcpfs.c:131-141 | The mounted table is the log, last entry winning, over the pages if and only if no later address follows a first logged 0. |
| `Mount.CachedAddrsIff` | xcpfs.c:131-141 | The replayed cache has the log's addresses if and only if no address follows a first logged 0. |
| `Mount.FirstZeroSticks` | xcpfs.c:131-141 | A first logged 0 followed by an address leaves the nid at 0: a concrete failure. |
| `Mount.LoggedOnceGoesStale` | nat_mgmt.c:16-42 | A nid logged once is clean after the mount although its page differs: a concrete entry the next checkpoint will not write. |
| `Mount.PassLogReplays` | checkpoint.c:67-76 | The log of one checkpoint pass never has an address after a 0. |
| `Mount.RemountSame` | xcpfs.c:88-145 | Reading superblock, table and nodes back from the drive alone gives every node page, every table page and every nid's address as before the mount. |
| `Mount.RemountKeepsTree` | xcpfs.c:88-145 | In what is read back from the drive every walk and every block address of every file is as before the mount. |
| `Mount.RemountCoreIff` | xcpfs.c:88-145 | For what is read back, the table's invariant survives the mount if and only if every node that is reached was ever written: one created by a read looks free again although referenced. |
| `Mount.RemountTracked` | xcpfs.c:88-145 | After the mount memory agrees with the disk and nothing is dirty. |
| `Mount.RemountSupply` | nat_mgmt.c:223-262 | After the mount the table file can still grow. |
| `Mount.RemountStaleIff` | nat_mgmt.c:16-42 | Because the dirty argument is dropped, a nid is stale after the mount if and only if it was logged, its page differs, and the log did not itself move it: exactly the nids the next checkpoint loses unless they are written again. |
| `Mount.CheckpointMounts` | checkpoint.c:67-76 | What a checkpoint leaves in the superblock can be mounted. |
| `Mount.CrashThenMount` | xcpfs.c:88-145 | Checkpoint, then any pipeline run, then a crash and a mount that reads only the crashed drive: every node page, nid address and file block is that of the checkpoint. |
| `Lifetime.NextMountOk` | xcpfs.c:88-145 | Checkpoint, then any run of the joint machine, then a crash and a mount with clean arrays: if every reached node had been written, table, trees and pipeline start together again, with exact accounting, and every block reads as at the checkpoint. |
| `Lifetime.RemountCheckpointed` | xcpfs.c:88-145 | What a mount reads back is itself completely described by the superblock, if every reached node was written. |
| `Lifetime.CrashesKeepCheckpoint` | xcpfs.c:261-272 | Any number of mounts may run and crash anywhere after one checkpoint: each next one starts right, with exact accounting, and every block still reads as at the checkpoint. |
| `Lifetime.ClearedIsClean` | xcpfs.c:23-45 | After any run every block on the drive lies in a zone in use, so the next mount's report gives such arrays. |
| `Lifetime.SecondCheckpointIff` | nat_mgmt.c:25 | The checkpoint of a second mount describes all of memory if and only if every nid the first mount's replay left clean is in its log or was written or flushed before its last pass. |
| `Lifetime.UntouchedIsLost` | nat_mgmt.c:16-42 | A nid left clean whose entry and page slot do not change in the second mount is lost unless the second checkpoint logs it. |
| `Witness.LookUpHigh` | nat_mgmt.c:147-190 | On the first mount of a fresh image, every lookup of a regular nid leaves a node of the table file reached, without an address and not dirty. |
| `Witness.NeverWrittenNodeIsLost` | nat_mgmt.c:6-14 | From a fresh image there is a run, such a lookup and the writes of the checkpoint after it, to a complete checkpoint whose mount breaks the table's invariant: the node is still reached, but looks free and can be handed out again. |
| `Witness.IdleMountRollsBack` | nat_mgmt.c:16-42 | Three mounts, as runs from a fresh image: the first creates a file and checkpoints; the second overwrites its block and checkpoints, and it reads back; the third writes nothing and checkpoints, and every block of every file reads as at the first checkpoint, because the entry of the table's own node was left clean. |
| `Witness.IdleAgrees` | checkpoint.c:55-79 | After a mount whose log moved no nid, a pass that writes nothing and logs what is believed is a pass of the checkpoint. |
| `Truncate.InvalidateAllLaws` | zone_mgmt.c:301-320 | Invalidating a list of blocks clears exactly those bits and lowers each zone's count by its share of the list. |
| `Truncate.UnlinkWalk` | file.c:98-108 | Clearing the link to a direct node takes away that walk only. |
| `Truncate.UnlinkAddr` | file.c:98-108 | Clearing the link to a direct node unmaps exactly the blocks below it. |
| `Truncate.Truncator.ClearSlots` | file.c:86-93 | A range of slots is unmapped, each former block invalidated once, and nothing else changes. |
| `Truncate.Truncator.RecurseDirect` | file.c:4-74 | At depth 0 the slots from the offset on are unmapped and invalidated once each, and the offset is lowered as the code does. |
| `Truncate.Truncator.TruncateDirect` | file.c:98-108 | One round on a direct node unmaps exactly what its plan says, and clears its link and drops its nid exactly when the plan does. |
| `Truncate.Truncator.TruncateBlocks` | file.c:76-141 | For a file without indirect nodes: exactly the blocks called gone are unmapped, no other block of any file changes, exactly the listed blocks are invalidated. The first direct node, if there, is unlinked and its nid dropped when truncating below 900 or to 901; the second below 900, to 1919, and to 902, or 901 when there is no first one; otherwise the links stay, and nothing else is dropped. |
| `Truncate.DropsWhen` | file.c:98-108 | The same for the rounds of the loop. |
| `Truncate.GoneByNumber` | file.c:4-141 | Which block numbers a truncation unmaps: in the inode those from the new end on; in each direct node those from a slot on that is given in block numbers, or all of them when it is unlinked. |
| `Truncate.ReleasedByNumber` | file.c:4-141 | The released blocks are those formerly mapped in these three ranges, in order. |
| `Truncate.ReleasedBelow900` | file.c:76-141 | Truncating below 900 unmaps exactly the indices from there on and releases exactly the blocks formerly there. |
| `Truncate.TruncatesRightIff` | file.c:4-141 | Truncation within the direct blocks does what it should if and only if it does not cut one slot into a direct node whose first block is mapped, and the leading blocks it forgets in the second direct node are holes. |
| `Truncate.TruncateTo901Loses900` | file.c:51-54 | Truncating to 901 blocks loses block 900. |
| `Directory.Dir.constructor` | dir.c:195-224 | A new directory has `.` and `..` in slots 0 and 1, both with its own number. |
| `Directory.Dir.AddLink` | dir.c:54-95 | Adds the name to the map, in the first hole or a new page, exactly if it was not there. |
| `Directory.Dir.FindEntry` | dir.c:133-162 | Finds a slot of the name exactly if the map has it. |
| `Directory.Dir.InodeByName` | dir.c:164-176 | Returns the inode the map gives, or 0. |
| `Directory.Dir.Unlink` | dir.c:260-309 | Removes the name from the map and clears its slot; reports whether it was there. |
| `Directory.Dir.EmptyDir` | dir.c:311-334 | True if and only if `.` and `..` are the only names. |
| `Directory.RunRefinesMap` | dir.c:54-334 | Over every run of adds and deletes the slots are the map of the same run, slots 0 and 1 stay, and the page count is the larger of the initial count and the peak of live entries. |
| `Directory.FreshDirPages` | dir.c:54-95 | For a new directory the page count is always the historical peak of live entries. |

## Left out

- Checkpoint.Drive.Append: stands for the zone layer behind one write at a time; writes of one checkpoint do not overlap there (the pipeline's own theorems cover every interleaving; `RestartFuel.WriteIsAppend` and `CheckpointRun.CheckpointIsRun` tie the two, given that the pipeline can serve each write at the address the drive chose).
- Checkpoint.Checkpointer.CpAppendNat: the log is a sequence here, an array in the superblock page there; the code does not check its room of 312 entries. `Checkpoint.Checkpointer.DoCheckpoint` says when it fits; what a longer log overwrites is not modelled.
- Checkpoint.Checkpointer.SyncInodes: writes pages in any order until no file block is dirty; the kernel's choice of inodes and its write-back of inode attributes are not modelled.
- Checkpoint.Checkpointer.Phase1: the write-back of inode attributes, which dirties inode pages, is not modelled.
- Checkpoint.Checkpointer.Phase2: `flush_zit`, which dirties pages of the meta file that are not table pages, is not modelled; its bitmap sizes and indexing do not match on disk.
- Checkpoint.Checkpointer.DoCheckpoint: without `flush_zit` and inode attributes, as its phases, and one write at a time.
- Checkpoint.Checkpointer.FlushNat: the entries only; `flush_zit`, which follows it, is not modelled.
- Checkpoint.Checkpointer.WriteFile: the content of a block is one value; partial pages, file size and times are not modelled.
- NatFs.Nat.GetDnodePage: asks for enough free nids (as many low ones as the table file has missing nodes, three regular ones); running out, where the code scans past the table, is not modelled.
- NatFs.Nat.AllocFreeNat: asks for a free nid of the range and, for a regular one, for the low nids the table file still needs; without them the scan runs past the table.
- NatFs.Nat.NewInode: asks for a free regular nid and for the low nids the table file still needs, as `NatFs.Nat.AllocFreeNat` does.
- Checkpoint.Checkpointer.CreateFile: the same.
- NatFs.Nat.PrepareMetaPage: pages of inode 1 only; of other inodes it serves, the walk and the slot are those of `NatFs.Nat.GetDnodePage`.
- NatFs.Nat.LookupNat: takes nids in circulation only (table blocks 0-899 and 6000-599999): others are never handed out, logged or stored.
- BlockPath.GetPath: indices above 2146450258, where the 32-bit arithmetic overflows, are excluded; a file's last block is at 1057053415.
- ZoneManager.Manager.GetZone: a search that never settles (the code spins) is excluded by the exact condition of `ZoneAlloc.HaltsIff`.
- ZoneAlloc.GetZoneShape: assumes an empty zone from 2 on where one is wanted; `ZoneAlloc.SuperblockZoneTaken` is the other case, in which superblock zone 0 is retyped and returned.
- ZoneAlloc.GetZoneKeepsLimits: the same assumption.
- ZoneAlloc.GetZoneBurnsFuel: the same assumption; without an empty zone, searches of two types can retype zone 0 back and forth, and ask for a restart each time.
- WritePipeline.AllocTable: the same assumption, and that the search settles.
- WritePipeline.SubmitSafe: the same, as part of what a submission needs.
- Joint.RunOk: of truncation, single slots and links to direct nodes; indirect nodes are never unlinked.
- Witness.IdleMountRollsBack: each run is in the order a checkpoint takes, serially, on a drive with room for a zone per write; the new file is not entered in a directory.
- ZoneManager.Manager.AllocZone: block addresses are unbounded integers, not 32-bit; bitmaps are sets of bit numbers of the zone, not arrays of the allocated size.
- Truncate.Truncator.TruncateBlocks: only files without indirect nodes, as its precondition says, where the recursion with depth above 0 has nothing to do; that recursion skips slot 0 and never enters the partly cut child.
- Directory.Dir.AddLink: one entry per page as in the code; allocation failures of pages are not modelled.
- Checkpoint.Checkpointer.CutBlock: one block at a time; unlinking whole nodes and invalidating their nids is covered for the trees (`Truncate`) and the joint machine (`Unlink`), but is not one of the checkpointer's operations.
- Update in place of node pages and table pages: they are values in maps that the methods replace, so aliasing of page buffers is not captured; zone arrays, slot arrays and path arrays are arrays.
- The `ino` of a table entry is carried along but nothing reads it back, and no theorem is about it beyond what a walk, the caching of a page, the flush and the replay store.
- The zone information table, its flush and its load (`xcpfs.c:148-188`): bitmap sizes and indexing do not match on disk, and the load copies the first entry's bitmap into every zone in use. A mount is taken to find zeroed bitmaps, or bits of published blocks only.
- Which of zones 0 and 1 holds the superblock: nothing rotates them; the mount is taken to read the last superblock written.
- `write_inflight` counters: counted up and down around each write and never settled otherwise; 0 here.
- Write errors: the completion ignores the status and so does the model.
- Page cache, page locks, reference counts, bio construction, semaphores: pages are values, locked regions are steps.
- Inode attributes, eviction, link counts, `readdir`, mount registration, debug dumps, mkfs, raw drive commands.
- Summary blocks and garbage collection: not implemented in the code.
