# ext4 extent trees, hashed directories and the eVFS layer, in Dafny

This project models the parts of the linux-evfs fork of ext4 that change on-disk structures
step by step, and proves what those steps keep and what they add up to:

- **Extent trees.** `Extents` gives a sequence of extents its meaning, a partial map from
  logical block to physical block and written/unwritten state. `KeyTree` is the tree shape
  shared by extent trees and hashed directories, with root-to-leaf paths kept as the code keeps
  them, one slot per level. On top of these stand `ExtentTree` (lookup), `ExtentInsert`,
  `ExtentMerge`, `ExtentSplit`, `ExtentRemove`, `ExtentConvert`, `ExtentShift` and `ExtentSwap`.
  An inode is an object whose `root` and `depth` the operations update; every result is stated
  against the flattened sequence of extents or its map.
- **eVFS extent move.** `EvfsMap` is one step of `__evfs_extent_map`, `EvfsMove` the whole
  request.
- **Directories.** `DirBlock` is a block of records, `DxSort` the sort of the hash map, `DoSplit`
  the split of a block, `SplitRoom` the question whether a new entry fits afterwards, `Htree` the
  lookup in a hashed directory and `HtreeInsert` adding to one.
- **eVFS tracker.** `Tracker` is the lazily allocated bitmap under read/write locks as a state
  machine over any number of threads; `InodeLife` and `BlockCounts` are its use for inode numbers
  and the free-block counts.

`dafny verify dfyconfig.toml` verifies the project. Every lemma carries `{:induction false}`, so no
proof rests on automatic induction.

## Model

| member | source | states |
|---|---|---|
| `Extents.PackedLenMeansSame` | linux-6.8/fs/ext4/extents.c:1766-1797 | a length field reads back with its length and state exactly when the extent is within 2^15 written or 2^15-1 unwritten blocks |
| `Extents.LookupNearest` | linux-6.8/fs/ext4/extents.c:815-871 | a block is mapped exactly when the extent a search stops at covers it |
| `Extents.LookupInserted` | linux-6.8/fs/ext4/extents.c:1971-2187 | an inserted extent adds exactly its own blocks to the map |
| `Extents.SplitSameMap` | linux-6.8/fs/ext4/extents.c:3194-3235 | cutting an extent keeps address and state of every block |
| `Extents.CanMergeIff` | linux-6.8/fs/ext4/extents.c:1766-1797 | two extents can be merged exactly when they are neighbours and one extent within the limits says what they say |
| `Extents.MergeIsInverseOfSplit` | linux-6.8/fs/ext4/extents.c:1805-1844 | cutting a merged extent where its second part began gives the two parts back |
| `Extents.MergeStep` | linux-6.8/fs/ext4/extents.c:1805-1844 | one merge keeps the map, the order and the length limits |
| `KeyTree.SearchEntries` | linux-6.8/fs/ext4/extents.c:754-813 | the binary search ends at the last key not above the block, else the first entry, without comparing entry 0 |
| `KeyTree.PathUnique` | linux-6.8/fs/ext4/extents.c:886-971 | two paths a key leads along in one tree pass the same entries and end at the same node |
| `KeyTree.FlatFill` | linux-6.8/fs/ext4/extents.c:886-971 | what a tree holds is what the path leaves on its left, the node reached, and what it leaves on its right |
| `ExtentTree.SearchLeaf` | linux-6.8/fs/ext4/extents.c:815-871 | the binary search in a leaf agrees with a linear scan |
| `ExtentTree.FindExtent` | linux-6.8/fs/ext4/extents.c:886-971 | the descent ends in the leaf the block leads to, with the extent a scan of that leaf would pick |
| `ExtentTree.FoundIsNearest` | linux-6.8/fs/ext4/extents.c:886-971 | on every well-formed tree the extent found is the one a linear scan of the whole file picks: the last one starting at or before the block, else the first |
| `ExtentTree.FillShape` | linux-6.8/fs/ext4/extents.c:886-971 | a tree is well-formed if and only if the path is sound around its end and the node there is well-formed |
| `ExtentTree.NextLeafBlock` | linux-6.8/fs/ext4/extents.c:1678-1700 | the first block of the next leaf, or EXT_MAX_BLOCKS when there is none |
| `ExtentTree.NextAllocatedBlock` | linux-6.8/fs/ext4/extents.c:1645-1672 | the start of the extent after the one picked in the whole file, or EXT_MAX_BLOCKS |
| `ExtentTree.Inode.constructor` | linux-6.8/fs/ext4/extents.c:873-884 | a new inode is a well-formed tree without extents |
| `ExtentInsert.InsertIndex` | linux-6.8/fs/ext4/extents.c:978-1044 | the new entry goes right behind or right before the current one, as its key says |
| `ExtentInsert.CorrectIndexes` | linux-6.8/fs/ext4/extents.c:1709-1764 | after the first block of a leaf has changed, every key above is again the first block of its subtree, and nothing beside the path moves |
| `ExtentInsert.SplitHalves` | linux-6.8/fs/ext4/extents.c:1056-1260 | the leaf and each index block on the path below the split level become two well-formed subtrees that hold what lay left and right of the cut |
| `ExtentInsert.ExtSplit` | linux-6.8/fs/ext4/extents.c:1056-1305 | the split keeps the leaf sequence, and leaves a tree in which the new extent's block leads to a leaf with room and at its sorted place |
| `ExtentInsert.GrowInDepth` | linux-6.8/fs/ext4/extents.c:1315-1395 | one level more, the same leaf sequence, well-formed |
| `ExtentInsert.CreateNewLeaf` | linux-6.8/fs/ext4/extents.c:1402-1465 | whichever of splitting and growing it takes, repeatedly, the new extent ends up facing a leaf with room, the leaf sequence is unchanged, and the tree has grown by a level exactly if every block on the way was full |
| `ExtentInsert.InsertInLeaf` | linux-6.8/fs/ext4/extents.c:2106-2187 | the leaf sequence becomes the old one with the extent at its sorted place, with all keys repaired |
| `ExtentInsert.InsertExtent` | linux-6.8/fs/ext4/extents.c:1971-2187 | for every well-formed tree of any depth and every non-overlapping extent, insertion without merging yields a well-formed tree whose leaf sequence is the old one with the extent at its sorted place; it has a level more only if every block on the way there was full |
| `ExtentMerge.TryToMergeRight` | linux-6.8/fs/ext4/extents.c:1805-1844 | the extent grows over those after it as far as it can be merged with them, and nothing else changes; map, physical blocks and order are kept within the limits |
| `ExtentMerge.TryToMergeUp` | linux-6.8/fs/ext4/extents.c:1846-1886 | collapsing a one-leaf tree into the inode changes no extent, and happens exactly if it fits and credits allow |
| `ExtentMerge.TryToMerge` | linux-6.8/fs/ext4/extents.c:1892-1912 | the leaf is merged from the extent before, if that can be, and else from the extent itself, as far as it goes, and nothing else changes; map and physical blocks are kept, behind the extent no extent of 2^15 blocks appears or disappears, and the tree collapses exactly if it can |
| `ExtentMerge.MergingSettles` | linux-6.8/fs/ext4/extents.c:1892-1912 | afterwards the extent cannot be merged with the one after it in the leaf, nor, unless it was merged into the one before, with that |
| `ExtentMerge.LongMerge` | linux-6.8/fs/ext4/extents.c:1766-1844 | no merge takes in or, further on, produces an extent of 2^15 blocks |
| `ExtentSplit.InsertExtentMerging` | linux-6.8/fs/ext4/extents.c:1971-2187 | with merging, the file says exactly what it said before plus the new extent, which cannot be merged any further in its leaf; where it can be joined to an extent found, only that leaf changes and no extent is added |
| `ExtentSplit.SplitExtentAt` | linux-6.8/fs/ext4/extents.c:3156-3235 | the extent is exchanged for its two pieces with the states asked for, exactly so when nothing is merged; otherwise up to merging, after which the second piece cannot be merged any further in its leaf |
| `ExtentSplit.ForceSplitExtentAt` | linux-6.8/fs/ext4/extents.c:330-345 | a forced cut exchanges the extent for head and tail of the same state and leaves all others alone |
| `ExtentSplit.SplitKeeps` | linux-6.8/fs/ext4/extents.c:330-345 | such a cut keeps the address and state of every block and the physical blocks owned |
| `ExtentSplit.Rewrite` | linux-6.8/fs/ext4/extents.c:5749-5761 | rewriting an extent in place and merging around it changes the map at that extent only, and the leaf exactly by that merging |
| `ExtentRemove.RmLeaf` | linux-6.8/fs/ext4/extents.c:2569-2770 | a leaf is left with exactly what it held outside the range, the runs freed are exactly the physical blocks it held inside, and it is known exactly whether the first extent was cut or taken out |
| `ExtentRemove.LeafKey` | linux-6.8/fs/ext4/extents.c:2663-2738 | the first block of what is left of a leaf is the border written by ext4_ext_correct_indexes, or, where that is not called, the old one |
| `ExtentRemove.Sweep` | linux-6.8/fs/ext4/extents.c:2935-3009 | going leftwards through an index block, the subtrees up to the first one lose exactly the range, empty ones lose their entry, and, although a key changes only where the code writes one, every key left is a subtree's first block |
| `ExtentRemove.RemoveBelow` | linux-6.8/fs/ext4/extents.c:2935-3009 | the same for a whole subtree; what the code wrote over the key that leads to it, or that key where it wrote nothing, is the first block of what is left |
| `ExtentRemove.LevelBack` | linux-6.8/fs/ext4/extents.c:2281-2328 | coming back up one level, an emptied child loses its entry, and what is carried up from first entries only is enough to keep every key the first block of its subtree |
| `ExtentRemove.CutAtEnd` | linux-6.8/fs/ext4/extents.c:2826-2884 | an extent that goes on behind the range is cut at its end, with map and physical blocks unchanged |
| `ExtentRemove.RemovedLookup` | linux-6.8/fs/ext4/extents.c:2434-2552 | the remaining extents map exactly what was mapped outside the range |
| `ExtentRemove.RemovedPoints` | linux-6.8/fs/ext4/extents.c:2434-2552 | the physical blocks they no longer own are those mapped in the range |
| `ExtentRemove.RemoveRange` | linux-6.8/fs/ext4/extents.c:2906-3053 | one pass over a tree cut at the end of the range removes exactly the range, frees each of its blocks once and keeps the tree well-formed |
| `ExtentRemove.RemoveTail` | linux-6.8/fs/ext4/extents.c:2919-3053 | the same for a range up to the end of the address space, which is not cut first |
| `ExtentRemove.RemoveSpace` | linux-6.8/fs/ext4/extents.c:2793-3053 | for every range, an empty one included: exactly the mappings in the range go, each data block mapped there is freed exactly once and no other, the tree stays well-formed with every key the first block of its subtree, and an emptied file has depth 0 |
| `ExtentConvert.SplitExtent` | linux-6.8/fs/ext4/extents.c:3304-3373 | exactly the blocks asked for become written, nothing moves; the extent becomes up to three, of which the written one is then merged as far as it can be, unless merging is off |
| `ExtentConvert.TransferLeft` | linux-6.8/fs/ext4/extents.c:3451-3496 | handing blocks to the written extent before them converts exactly those blocks, or nothing happens |
| `ExtentConvert.TransferRight` | linux-6.8/fs/ext4/extents.c:3497-3544 | the same for the extent after them |
| `ExtentConvert.TakesOneShort` | linux-6.8/fs/ext4/extents.c:3483-3528 | a neighbour can have blocks of an extent exactly if it could be merged with one block more of it |
| `ExtentConvert.ChooseRange` | linux-6.8/fs/ext4/extents.c:3577-3612 | the physical blocks zeroed are exactly those behind the blocks that are converted without having been asked for; what is converted and what is returned, and that more is returned than converted exactly when there is more of the extent behind the request and nothing beside it was zeroed |
| `ExtentConvert.OverstatesNinety` | linux-6.8/fs/ext4/extents.c:3552-3618 | for 5 blocks in the middle of a 100-block extent, with zeroing off, 5 are converted and 90 returned |
| `ExtentConvert.Transfer` | linux-6.8/fs/ext4/extents.c:3451-3549 | the request goes to a neighbour exactly when it is at that end of the extent and the neighbour is written, contiguous and short enough |
| `ExtentConvert.ConvertToInitialized` | linux-6.8/fs/ext4/extents.c:3395-3627 | no address changes, every requested block becomes written, every other block that becomes written had its physical block zeroed before, and nothing else was zeroed, least of all when the extent goes beyond the end of the file; exactly which blocks become written and what is returned, in terms of the request, the extent, the size of the file, the limit and what can be zeroed; that many blocks are written if and only if the request was transferred or not overstated; what extents are left, up to merging |
| `ExtentShift.TooFarMeansNoHole` | linux-6.8/fs/ext4/extents.c:5191-5209 | the unsigned test for too little room is true exactly when the blocks to be shifted into are not a hole |
| `ExtentShift.ShiftLeafLeft` | linux-6.8/fs/ext4/extents.c:5097-5117 | the extents of a leaf from one on move left, merging as they go, and mean what they meant; none that has moved can be merged with the one before it |
| `ExtentShift.ShiftLeafRight` | linux-6.8/fs/ext4/extents.c:5097-5117 | the same to the right, from the last one down |
| `ExtentShift.ShiftIndexes` | linux-6.8/fs/ext4/extents.c:5125-5146 | adding the distance to the keys above a moved leaf, up through first entries, makes each of them the leaf's new first block, and nothing beside the path moves |
| `ExtentShift.ShiftLeft` | linux-6.8/fs/ext4/extents.c:5160-5296 | every mapping from the start on moves left by the shift, the others stay, the tree stays well-formed; refused exactly when there is no hole to shift into |
| `ExtentShift.ShiftRight` | linux-6.8/fs/ext4/extents.c:5160-5296 | for a file that begins at or before the start: every mapping from there on moves right by the shift and leaves a hole; refused exactly when the last extent would leave the address space |
| `ExtentShift.ShiftRightAndBack` | linux-6.8/fs/ext4/extents.c:5160-5296 | shifting right and back left restores the block map and is never refused half way |
| `ExtentShift.RightThenLeft` | linux-6.8/fs/ext4/extents.c:5160-5296 | a right shift followed by a left shift of the same distance is the identity on the map |
| `ExtentShift.RoundsFromHole` | linux-6.8/fs/ext4/extents.c:5239-5289 | a one-leaf file that begins after the start: after any number of rounds the loop goes on, and the map is the one asked for exactly after the first |
| `ExtentShift.AroundIsWrong` | linux-6.8/fs/ext4/extents.c:5262-5281 | wherever the loop ends on a one-extent file that begins after the start, be it after going around the 32-bit block numbers, the extent is not where it was to go |
| `ExtentShift.NeverAround` | linux-6.8/fs/ext4/extents.c:5262-5281 | from block 5, moving by 2^31, it does not end |
| `ExtentSwap.SwapRound` | linux-6.8/fs/ext4/extents.c:5630-5785 | a round jumps over a hole to where the later of the two next extents begins, or stops if one file has none, cuts an extent and is then nearer to alignment, or exchanges a stretch of equal length; it never passes over two extents of 2^15 blocks that face each other |
| `ExtentSwap.SwapExtents` | linux-6.8/fs/ext4/extents.c:5619-5787 | each position pair has its addresses exchanged or is untouched, the result is the number exchanged, no physical block is lost or shared; from the beginning, and from wherever both files come out of a hole together, everything is exchanged up to the next hole, so everything mapped in both if holes only end together; with holes or without, marking unwritten stops at a BUG if and only if two extents of 2^15 blocks face each other within the ranges |
| `ExtentSwap.JumpPassesPairs` | linux-6.8/fs/ext4/extents.c:5669-5690 | a hole of one file that faces an extent of the other: the jump passes over ninety positions mapped in both |
| `ExtentSwap.LongFilesStop` | linux-6.8/fs/ext4/extents.c:5755-5758 | two files of one extent of 2^15 blocks meet the condition of that BUG |
| `ExtentSwap.SwapTwiceRestores` | linux-6.8/fs/ext4/extents.c:5619-5787 | exchanging the same positions twice restores the first file, and the addresses of the second |
| `EvfsMap.ExtentMap` | linux-6.8/fs/ext4/evfs.c:84-220 | one call ends after at most two cuts; it reports a hole, the end of the file or one physically contiguous piece that goes up to the end of the request or of the extent, which it has moved onto the new blocks; behind it extents end where they did, unless what follows continues the new blocks |
| `EvfsMove.RunStep` | linux-6.8/fs/ext4/evfs.c:1405-1416 | every step keeps the account of what is done, or the run has gone astray for good |
| `EvfsMove.RunEnds` | linux-6.8/fs/ext4/evfs.c:1405-1416 | a run ends with the request carried out if and only if the request was good |
| `EvfsMove.ExtentMove` | linux-6.8/fs/ext4/evfs.c:1373-1429 | for a good request the records tile the range, each goes up to the end of the request or of the hole or extent it begins in, and passes no end of an extent if the new blocks are fresh, so that there are at most two for every extent that ends inside the range and two more; each mapped block b is at phy_start + (b - log_start) with its state, holes stay holes, all else is untouched, and blocks owned plus blocks reported stay the same; for any other request onto fresh blocks the records do not tile or some block has not moved |
| `EvfsMove.HoleOverrunsRequest` | linux-6.8/fs/ext4/evfs.c:116-138 | a request that ends inside a hole reports more blocks than were asked for |
| `EvfsMove.HoleSkipsMappedBlock` | linux-6.8/fs/ext4/evfs.c:116-138 | a request that starts inside a hole jumps over a mapped block |
| `DxSort.NextGap` | linux-6.8/fs/ext4/namei.c:1352-1376 | the comb gap decreases although 9 and 10 become 11 |
| `DxSort.NextGapIs` | linux-6.8/fs/ext4/namei.c:1352-1376 | it is ten thirteenths of the last one, rounded down, but for 9 and 10 |
| `DxSort.Comb` | linux-6.8/fs/ext4/namei.c:1360-1363 | a pass leaves, in each row of entries a gap apart, the lowest first |
| `DxSort.SortMap` | linux-6.8/fs/ext4/namei.c:1352-1376 | the sort terminates on every input and leaves a permutation in order of hash |
| `DirBlock.Block.Search` | linux-6.8/fs/ext4/namei.c:1530-1562 | finds a record of that name if and only if a live entry has it |
| `DirBlock.Block.Read` | linux-6.8/fs/ext4/evfs.c:981-1020 | inode number and length are those of the n-th live entry, 0 if there are not that many; its name comes back whole if and only if it is shorter than the array or ends in a zero byte, and the rest of the array is as it was |
| `DirBlock.NameCopied` | linux-6.8/fs/ext4/evfs.c:1003-1004 | the array after the copy, byte by byte, and when it holds the name |
| `DirBlock.LongestNameCut` | linux-6.8/fs/ext4/evfs.c:1003-1004 | a name of 255 letters comes back as 254 and a zero |
| `DirBlock.Block.FindDest` | linux-6.8/fs/ext4/namei.c:2097-2129 | the first record with room; -EEXIST exactly when the name stands before any room for it, -ENOSPC exactly when there is neither |
| `DirBlock.Block.Insert` | linux-6.8/fs/ext4/namei.c:2131-2161 | exactly the new entry is added, and the records still tile the block; a live record keeps just what its name needs and the rest goes to the new one |
| `DirBlock.Block.Add` | linux-6.8/fs/ext4/namei.c:2171-2198 | the two together; a refused block is unchanged |
| `DirBlock.Block.Delete` | linux-6.8/fs/ext4/namei.c:2662-2710 | exactly the entry of that record goes, and the records still tile the block; the bytes go to the record before it, or stay where they are at the beginning |
| `DirBlock.MinLenHolds` | linux-6.8/fs/ext4/ext4.h:2401-2409 | the length of a record is the least multiple of four that holds header and name |
| `DirBlock.NamesApart` | linux-6.8/fs/ext4/ext4.h:2401-2409 | in a block its records tile, no header or name reaches into the next record or beyond the block |
| `DirBlock.FitsIff` | linux-6.8/fs/ext4/namei.c:2119-2126 | an entry fits into a record exactly if all that is made of the record is then long enough for its name |
| `DirBlock.InsertThenDelete` | linux-6.8/fs/ext4/namei.c:2131-2161 | deleting what was put behind a live entry restores the block |
| `DirBlock.NoRoomMeansTwo` | linux-6.8/fs/ext4/namei.c:2097-2129 | a block as adding, deleting and splitting leave it holds at least two entries when it has no room |
| `DirBlock.InsertStaysCompact` | linux-6.8/fs/ext4/namei.c:2131-2161 | adding leaves no dead record but the first |
| `DirBlock.DeleteStaysCompact` | linux-6.8/fs/ext4/namei.c:2662-2710 | nor does deleting |
| `DoSplit.MakeMap` | linux-6.8/fs/ext4/namei.c:1311-1349 | the map lists every live record once, with its hash and length |
| `DoSplit.SplitIndex` | linux-6.8/fs/ext4/namei.c:2024-2045 | going down the map, half of each record still fits into half the block with those above it, in bytes, until the one where it stops; the cut is right above that one, or in the middle by count, and neither side is empty |
| `DoSplit.NoClobber` | linux-6.8/fs/ext4/namei.c:1915-1941 | a copied record never reaches a map entry at the end of the new block that is still to be read |
| `DoSplit.MoveDirents` | linux-6.8/fs/ext4/namei.c:1915-1941 | with the map being overwritten from below, the entries listed above the cut are copied and wiped, and no other |
| `DoSplit.Pack` | linux-6.8/fs/ext4/namei.c:1948-1968 | the live entries in order, each as short as its name allows |
| `DoSplit.MapSums` | linux-6.8/fs/ext4/namei.c:1311-1349 | the lengths in the map and of the dead records add up to the block, and its names to what the block needs |
| `DoSplit.Split` | linux-6.8/fs/ext4/namei.c:1975-2095 | the entries are dealt out to two well-tiled blocks as a permutation ordered around hash2; where the cut is, and that all free space is behind each last entry |
| `SplitRoom.FitsUnlessTight` | linux-6.8/fs/ext4/namei.c:2024-2076 | after the split the new entry fits behind the last record of its half, if and only if it is not the case that the search for the middle stopped at the first map entry and the lower half by count needs too much |
| `SplitRoom.NoPlaceInTight` | linux-6.8/fs/ext4/namei.c:2042-2045 | a block of 1024 bytes with three long and three short names is such a case, however the sort comes out |
| `Htree.Probe` | linux-6.8/fs/ext4/namei.c:808-956 | the descent follows, at each level, the last key not above the hash |
| `Htree.NextBlock` | linux-6.8/fs/ext4/namei.c:1006-1061 | the next block in key order across index blocks, if and only if its key continues the hash |
| `Htree.FindEntry` | linux-6.8/fs/ext4/namei.c:1778-1829 | in every well-formed directory a name is found if and only if some block holds it, however equal hashes straddle blocks and index blocks |
| `HtreeInsert.SplitKeepsBlocks` | linux-6.8/fs/ext4/namei.c:2047-2078 | a split block filed under hash2 plus the continued bit keeps every block between its key and the next |
| `HtreeInsert.SplitKeepsEntries` | linux-6.8/fs/ext4/namei.c:2047-2078 | and neither loses nor gains an entry |
| `HtreeInsert.SplitTree` | linux-6.8/fs/ext4/namei.c:1378-1390 | the index with an entry for the new block is well-formed |
| `HtreeInsert.SplitBlock` | linux-6.8/fs/ext4/namei.c:1975-2095 | the block the hash leads to is exchanged for its two halves, the half the new entry belongs to has it exactly when it is not too tight, and the directory stays in order |
| `HtreeInsert.SplitIndexBlock` | linux-6.8/fs/ext4/namei.c:2573-2613 | splitting a full index block below one with room keeps all blocks in order and leaves the hash leading to the same block; the block is cut in two by count, and the one above has one entry more |
| `HtreeInsert.AddLevel` | linux-6.8/fs/ext4/namei.c:2614-2634 | so does adding a level above a full root |
| `HtreeInsert.LevelToSplit` | linux-6.8/fs/ext4/namei.c:2534-2544 | the highest of the full index blocks at the end of the path, and whether there is none with room above it |
| `HtreeInsert.MakeRoom` | linux-6.8/fs/ext4/namei.c:2525-2635 | the blocks do not change, one full level less is in the way, the search starts again exactly if more than one level was full or one was added, and the index is reported full exactly when every level is full and no more are allowed |
| `HtreeInsert.TryBlock` | linux-6.8/fs/ext4/namei.c:2171-2198 | adding to the block the hash leads to keeps the directory in order; refused exactly as the block refuses |
| `HtreeInsert.EnoughToSplit` | linux-6.8/fs/ext4/namei.c:2024-2049 | a block as adding, deleting and splitting leave it is never too empty to be split |
| `HtreeInsert.NoPlaceReached` | linux-6.8/fs/ext4/namei.c:2042-2045 | in the block of three long and three short names the new entry has no place |
| `HtreeInsert.AddEntry` | linux-6.8/fs/ext4/namei.c:2486-2657 | on success exactly the entry is added and otherwise the entries are what they were, always in an order in which every name is found; for each result, the exact condition on the block the hash leads to and on the path; it terminates through any number of restarts |
| `Tracker.OwnBit` | linux-6.8/fs/ext4/evfs-bmt.c:68-75 | every number below num_bits has a word and a bit of its own |
| `Tracker.LastInode` | linux-6.8/fs/ext4/super.c:5604-5609 | the last inode number is accepted exactly when the inode count is no multiple of the word size |
| `Tracker.StepInv` | linux-6.8/fs/ext4/evfs-bmt.c:68-94 | every step of every thread keeps the invariant |
| `Tracker.SafeRuns` | linux-6.8/fs/ext4/evfs-bmt.c:68-94 | under every interleaving of any number of threads a word is allocated at most once, no operation touches a missing word, and a writer is alone |
| `Tracker.LinearizableRuns` | linux-6.8/fs/ext4/evfs-bmt.c:68-94 | under every interleaving the operations return and leave what they would on one atomic set, taken in the order of one point each |
| `Tracker.ReturnHasPoint` | linux-6.8/fs/ext4/evfs-bmt.c:68-94 | that point lies between the call and the return of its operation, and gave the result returned |
| `Tracker.RealTimeOrder` | linux-6.8/fs/ext4/evfs-bmt.c:68-94 | an operation that returned before another was called comes before it |
| `Tracker.NoDeadlock` | linux-6.8/fs/ext4/evfs-bmt.c:68-94 | whenever some operation is under way, some thread can go on, even if readers queue behind a waiting writer |
| `InodeLife.FreeNeedsTracking` | linux-6.8/fs/ext4/evfs.c:48-63 | in every legal history an untracking that succeeds follows a tracking of that number with no untracking in between |
| `InodeLife.FreeNeedsTrackingInRuns` | linux-6.8/fs/ext4/evfs.c:48-63 | the same under every interleaving of threads in the tracker |
| `InodeLife.TrackingsAlternate` | linux-6.8/fs/ext4/evfs.c:33-46 | between two successful trackings of a number there is an untracking of it |
| `InodeLife.TrackingsAlternateInRuns` | linux-6.8/fs/ext4/evfs.c:33-46 | the same under every interleaving of threads in the tracker |
| `InodeLife.Inodes.Track` | linux-6.8/fs/ext4/evfs.c:33-46 | succeeds exactly on a number in range that is not tracked; which error for which refusal |
| `InodeLife.Inodes.Untrack` | linux-6.8/fs/ext4/evfs.c:48-63 | succeeds exactly on a number that is tracked; which error for which refusal |
| `InodeLife.Inodes.Alloc` | linux-6.8/fs/ext4/evfs.c:568-643 | succeeds exactly on a free number of the volume that can be tracked, which then is; the last number of a volume whose count is a multiple of the word size cannot, and stays marked |
| `InodeLife.Inodes.Free` | linux-6.8/fs/ext4/evfs.c:784-816 | succeeds exactly on an inode with at most one link that is tracked, and then it was tracked after it was last untracked; which error for which refusal, in their order |
| `InodeLife.Inodes.Unlink` | linux-6.8/fs/ext4/evfs.c:1094-1097 | leaves the number untracked |
| `InodeLife.Inodes.Relink` | linux-6.8/fs/ext4/evfs.c:1250-1254 | an inode that loses its last link is untracked, and no other |
| `BlockCounts.ClearBitsUpdate` | linux-6.8/fs/ext4/evfs.c:317-350 | one bit changes the number of clear bits by one or not at all |
| `BlockCounts.Volume.UsedIs` | linux-6.8/fs/ext4/evfs.c:281-317 | block first + g * size + i of the volume is bit i of group g |
| `BlockCounts.Volume.Alloc` | linux-6.8/fs/ext4/evfs.c:317-350 | succeeds exactly on a free block of the volume, marks exactly that, keeps each group's count equal to its clear bits and both totals equal to their sum; any other number is refused and changes nothing |
| `BlockCounts.Volume.Free` | linux-6.8/fs/ext4/evfs.c:414-440 | the same for freeing |

## Findings

Eight properties the code might be expected to have are false. Each has an input, and an exact
condition except where the entry says otherwise.

- **A move request that starts or ends inside a hole.** The jump over a hole is measured from the
  end of the extent before it and not cut off at the end of the request (`evfs.c:118`, `:127`,
  `:132`). `EvfsMove.HoleOverrunsRequest` and `EvfsMove.HoleSkipsMappedBlock` are two inputs.
  `EvfsMove.Good` is the condition, and `EvfsMove.ExtentMove` proves it exact.
- **A right shift that starts before the first extent.** The search for the block
  before the first extent finds that extent again, so the loop moves it again and again.
  That the file begins at or before the start is enough (`ExtentShift.ShiftRight`). That it is
  necessary is proved for files of one leaf whose extents have room (`ExtentShift.RoundsFromHole`,
  the map after every number of rounds) and, with block numbers that wrap, for files of one extent
  (`ExtentShift.AroundIsWrong`, `ExtentShift.NeverAround`), not for all. The one caller starts at
  the first extent (`extents.c:5577-5582`).
- **An exchange that marks 2^15 blocks unwritten.** `ext4_ext_mark_unwritten` has no room for that
  length and stops the kernel. `ExtentSwap.SwapExtents` proves that this happens if and only if the
  two files have extents of that length at the same offset within the ranges.
  `ExtentSwap.LongFilesStop` is an input.
- **An exchange across a hole that only one file has.** The jump over a hole goes to where the later
  of the two next extents begins (`extents.c:5682-5686`), past positions mapped in both files before
  it. `ExtentSwap.JumpPassesPairs` is an input. That holes only end together, `ExtentSwap.HolesMatch`,
  is enough for everything mapped in both files to be exchanged (`ExtentSwap.SwapExtents`), but not
  necessary: the jump also depends on where the other file's extents begin, which merging changes.
- **The number of blocks converted.** `ext4_ext_convert_to_initialized` is to return the number of
  blocks from the first one asked for on that are written (comment at `extents.c:3386-3389`). It
  may return more. `ExtentConvert.Overstates` is the condition, in terms of the request, the extent
  and what could be zeroed, and `ExtentConvert.ConvertToInitialized` proves it exact, for requests
  not transferred to a neighbour. `ExtentConvert.OverstatesNinety` is an input.
- **A name of 255 bytes.** `evfs_dentry_read` writes a zero over the last byte of the array it has
  copied the name to (`evfs.c:1004`). `DirBlock.FitsArray` is the condition for the name to come
  back whole, `DirBlock.Block.Read` proves it exact, and `DirBlock.LongestNameCut` is an input.
- **The last inode number.** The tracker is made for `s_inodes_count` numbers counted from 0, while
  inode numbers count from 1. `Tracker.LastInode` says when the last one has no word.
- **A new name after a split.** The code inserts behind the last record of the chosen half without
  looking whether there is room, and splits a block without looking whether it has two entries.
  `SplitRoom.FitsUnlessTight` gives the exact condition for the first and
  `SplitRoom.NoPlaceInTight` a block that meets it. `HtreeInsert.EnoughToSplit` shows that the
  second does not occur in blocks left by adding, deleting and splitting. `HtreeInsert.AddEntry`
  reports the two as results of their own, `NO_PLACE` and `TOO_FEW`.

The `offs` of a map entry is modelled as the index of the record it points at.

## Left out

- Journal handles and credits, buffer heads, reference counts, checksums, quotas, encryption, casefolding and the extent status cache: taken as having no effect or as succeeding; where running out of credits changes the result it is the parameter `creditsOk`.
- Blocks as memory: a tree is a value in which an index block holds its children, so sharing and aliasing of blocks, and the lifetime of path arrays, are not modelled. Paths are looked up again after a split.
- `ext4_extents.h` is not part of this model; the length limits are those of mainline.
- Allocation failure, the ENOSPC zero-out fallback in `ext4_split_extent_at`, EAGAIN restarts in `ext4_ext_remove_space` and `ext4_ext_shift_extents`, and slot allocation failure in the tracker.
- Bigalloc and uninitialised groups: cluster ratio 1 and initialised groups throughout.
- Order of writes: in insertion, index keys are repaired before neighbours are merged instead of after; merging keeps the first block of a leaf (part of `ExtentMerge.Coalesces`), which is the key written. In removal, a key is written when the walk is back at its level, while the code writes all levels at once; which entries are written, and with what, follows the code.
- ExtentInsert.InsertExtent: the branch that steps back one extent when the slot found lies after the new extent is omitted, because no search on a well-formed tree reaches it.
- ExtentRemove.LevelBack: the count saved on the way down is taken as reset at every level; the loop in the source stops before the root (extents.c:2914-2916), so the root keeps what the field held before, which is assumed to differ from its number of entries.
- ExtentShift.ShiftRight: requires the file to begin at or before the start; the other half is shown for files of one leaf, because with several leaves a second round can make the leftmost leaf overlap the next and the tree is no longer one.
- ExtentShift.ShiftLeft: requires shift <= start and the start at an extent boundary or in a hole, as the callers ensure.
- ExtentSwap.SwapExtents: both ranges lie within the 32-bit block numbers and the count exchanged does not wrap; behind a hole that only one of the files has, it is said of each jump how far it goes but not of the whole run which pairs are exchanged, because that depends on how extents exchanged before have merged.
- EvfsMove.ExtentMove: physical block numbers are unbounded; the 48 bits of a stored one, and what becomes of a request whose target goes beyond them, are not modelled.
- ExtentConvert.ConvertToInitialized: zeroing and insertion succeed or fail as parameters say, and a zeroing that fails is taken to have written nothing.
- HtreeInsert.AddEntry: what the code writes in the two cases it does not check is not modelled; the directory is left split and without the new entry.
- DirBlock: hashes stored in directory entries, encrypted names and blocks of 64 KiB, where a record length is encoded differently.
- Htree.FindEntry: hash functions are not part of this model; entries carry their hash, equal names have equal hashes, and hashes are even as the code makes them.
- DirBlock.Block.Read: the file type handed back with the entry.
- InodeLife.Inodes.Alloc: group numbers do not wrap; an inode number outside the volume belongs to no group, as 0 does because one is subtracted first, and is refused with an error taken to be EFSCORRUPTED.
- BlockCounts.Volume.Alloc: a block before the first one, where the source subtracts unsigned, is one of no group.
- Tracker: memory ordering weaker than the locks give, and evfs_bm_tracker_final.
- InodeLife.Inodes.Free: what ext4_iget reports is a parameter; the orphan list and the later release of the inode are not modelled.
- evfs_extent_read, evfs_dentry_update of a name that is not found, evfs_fspace_iter, evfs_inode_iter and the ioctl dispatch.
