# Verified models of 4.1BSD commands

Dafny models of the algorithms behind seven user commands of 4.1BSD, with proofs
of what their documentation and callers rely on.  The imperative programs are
modelled as imperative Dafny: global tables are fields of a class or arrays, loops
are loops with invariants, and each method is tied to a specification on values
about which the lemmas are proved.

- **restor** (`Disk`, `BlockTree`, `FileTree`, `FileOrder`, `Restor`): a file system written
  through a three-slot cache.  The free list is a stack chained through the free
  blocks; `bmap` builds the tree of an inode up to three levels deep and `itrunc`
  takes it apart.  Restoring a file and truncating it conserves the free blocks.
- **fsck** (`FsckTypes`, `DupTable`, `InodeWalk`, `DirGraph`, `DirWalk`, `FreeMake`,
  `FreeCheck`, `MapBytes`, `MapPool`, `FsckMaps`): block claims and duplicates, the walk over an
  arbitrary directory graph, checking and rebuilding the free list of an arbitrary
  disk, and the maps that are kept in core or paged through a pool of buffers.
- **ld** (`Probe`, `LinkMap`, `SymTab`, `Relocate`, `Relink`): the segmented symbol table
  with quadratic rehash and rollback as a plain map, what pass 1 makes of every name, the
  layout of segments, and relocation that composes over `ld -r`.
- **sort** (`Decimal`, `SortKeys`, `SortOrder`, `QuickSort`, `SortMerge`): the comparison with its
  keys and its numbers of any length, the three-way quicksort, and runs merged
  seven at a time.
- **tsort** (`TopoSort`): topological order, with cycles found and broken.
- **crypt** (`Rotor`): the rotor machine, its own inverse for every key.
- **join** (`Join`): the merge that goes back over lines with the same field.
- **fgrep** (`KeywordTrie`, `KeywordCount`, `KeywordLinks`, `Fgrep`): the keyword trie and its size,
  failure links and text steps.

`dafny verify dfyconfig.toml` checks everything.

## Conventions

A disk is a map from block number to block, a block its 256 longs.  Results such
as KEEPON or an exit are datatypes; an error that ends the program is a result of
the method.  Block numbers, counts and sizes are unbounded unless the width
matters: link counts, hash sums, relocation fields and the key seed have the
machine's width.  Ghost fields record what the program does not store, such as the
free list as a stack, the claims made so far or the entries of the symbol table by
name.

`Numbers` has the arithmetic that several modules share.

Where the code and what one would expect of it differ, the model follows the code, and
where that breaks a property the exact condition is proved (for fgrep's queue with several
keywords, one that is enough):

- with -f sort folds `]` to a backslash (cmd/sort.c:68), and `restor` writes file blocks
  beyond the largest file over block 0;
- `restor` starts a file with the first address of the dumped inode (cmd/restor.c:384), so
  the file is as dumped, and truncating conserves the free blocks, exactly when block 0 is
  written or that address is 0 (`Restor.Volume.RestoreFile`, `RestoreThenTruncate`);
- phase 5 of fsck lays the superblock's list over a buffer that may still be marked as
  another block (cmd/fsck.c:624-626), and turns down a good list exactly when it goes on in
  that block (`FreeCheck.Fsck.Phase5`, `FreeCheck.GoodButReread`);
- when ld turns a library member down before any symbol is known, it keeps the place where
  that member ended; the next member turned down in that state is then a botch exactly when
  it has fewer names, and otherwise leaves as many of them behind
  (`SymTab.SymbolTable.RejectTwo`, `Load1`);
- ld -r rounds up the text of its output, so files move in a later link exactly when
  `Relink.NoShift` fails (`Relink.SameExactly`);
- fgrep's queue of states is a ring whose end can be left: with one keyword exactly when it
  has 400 characters or more (`Fgrep.Words.OneKeyword`), never with fewer than 399
  characters in all (`Fgrep.Words.CFail`, `KeywordCount.PrefixesFew`).

## Model

| member | source | states |
|---|---|---|
| `Disk.ChainUnique` | cmd/restor.c:857-911 | A superblock list and the chained free blocks denote one stack of block numbers, never two |
| `Disk.ChainFrame` | cmd/restor.c:857-876 | Writing any block that is not on the free list leaves the list as it was |
| `Disk.MarkerBelow` | cmd/restor.c:894-901 | The marker 0 lies at the bottom of every free list |
| `Disk.ChainPush` | cmd/restor.c:867-875 | A block pushed in core, or made the new first block of the chain, goes on top of the same stack |
| `Restor.ChainPop` | cmd/restor.c:894-907 | Taking the last in-core entry, and refilling from the block it names, uncovers the stack below it |
| `Restor.CacheMiss` | cmd/restor.c:755-773 | Whichever slot a read evicts, the cache still agrees with the disk and holds no block twice |
| `Restor.Volume.constructor` | cmd/restor.c:79-83 | With an empty cache, whose slots are zeroed, any disk and superblock list that denote a stack are a valid start |
| `Restor.Volume.DWrite` | cmd/restor.c:714-738 | The disk is updated at that block only, and the cache stays write-through and free of duplicates |
| `Restor.Volume.DRead` | cmd/restor.c:740-774 | A read through the three slots returns what the disk holds, that is the last block written there |
| `Restor.Volume.BFree` | cmd/restor.c:857-876 | The free list gains the block on top, s_tfree goes up by one, and no other block changes; a block that is on the list already is on it twice if there was room for it in core |
| `Restor.Volume.BAlloc` | cmd/restor.c:881-911 | Succeeds exactly when more than the marker is left; takes the top, clears it, and changes no other block |
| `Restor.Volume.TLoop` | cmd/restor.c:833-855 | Every block of a tree of one to three levels goes onto the free list once, below first, although freed blocks are overwritten during the walk |
| `Restor.Volume.ITrunc` | cmd/restor.c:797-831 | All data and indirect blocks of a file, and nothing else, are pushed once each, in the order that `FileOrder.ReleasedLastFirst` and `FileOrder.BlockLast` tell, a first address that is not the file's own last; other inode types free nothing |
| `Restor.Volume.TruncOthers` | cmd/restor.c:809-829 | The addresses behind the first, from the last one down |
| `Restor.Volume.Levels` | cmd/restor.c:942-954 | The shifts find the number of indirections and the offset behind the address, or that the block is beyond the largest file |
| `Restor.Volume.Fetch` | cmd/restor.c:967-975 | One indirection: the entry found, or a fresh cleared block entered there; fails only when nothing is free |
| `Restor.Volume.Through` | cmd/restor.c:963-978 | The loop over indirect blocks ends at the block that maps the file block, having allocated exactly what was missing |
| `Restor.Volume.BMap` | cmd/restor.c:918-979 | Maps file block k, changes no other mapping and no other file's blocks, conserves free plus used blocks, and fails exactly when too few are free; for k > 0 the first address is left alone, whatever it is; where a mapped block lies is `FileOrder.Layout` |
| `Restor.Volume.RstrFile` | cmd/restor.c:1070-1079 | The file then holds one more block at its place; the earlier ones still read back as written |
| `Restor.Volume.RstrSkip` | cmd/restor.c:1081-1086 | The file has a hole at that place |
| `Restor.Volume.RestoreFile` | cmd/restor.c:379-385 | Whatever is in the first address taken over from the dump, after any run of writes and skips file block k reads back as the k-th block written, or is a hole, exactly when block 0 was written or that address is 0; free plus file blocks are the old free blocks |
| `Restor.Volume.RestoreThenTruncate` | cmd/restor.c:379-385 | Restoring a file and truncating it gives back the same free blocks and the same s_tfree, exactly when block 0 was written or the address taken over is 0; otherwise that block is freed as well, and s_tfree is one more: if it was free, it is listed twice |
| `BlockTree.GraftAdds` | cmd/restor.c:967-975 | Entering a fresh block into an indirect block adds just that block to the tree |
| `BlockTree.GraftLook` | cmd/restor.c:967-975 | and changes the lookup of one data block only |
| `BlockTree.SubFrame` | cmd/restor.c:833-855 | Writes outside a tree leave its blocks as they were |
| `FileTree.LookupInjective` | cmd/restor.c:931-978 | Different blocks of a file are held by different disk blocks |
| `FileTree.DataWrite` | cmd/restor.c:1070-1079 | Writing a data block changes neither the tree nor the other blocks' places |
| `FileOrder.Layout` | cmd/restor.c:931-978 | File blocks 0 to 9 are the first addresses, 10 + i is entry i of the indirect block, 266 + 256 i + j entry j of entry i of the double one, and 65802 + 65536 i + 256 j + k the entry behind three |
| `FileOrder.SameOrder` | cmd/fsck.c:739-799 | In a file in the volume, the blocks that restor maps, taken by file block, are in just the order in which fsck comes to the data blocks |
| `FileOrder.ReleasedLastFirst` | cmd/restor.c:809-855 | Truncation releases the data blocks from the last of the file to the first |
| `FileOrder.BlockLast` | cmd/restor.c:843-854 | and an indirect block after everything below it |
| `DupTable.Claims.constructor` | cmd/fsck.c:802-848 | Before phase 1 nothing is claimed and the table is empty |
| `DupTable.Claims.Pass1` | cmd/fsck.c:802-848 | Claims a block: a block's bit plus its copies in the table is its number of claims, n_blks the number of bits; stopped only by the limits, and the table grows by a duplicate only |
| `DupTable.Claims.Remember` | cmd/fsck.c:831-840 | The table gains one copy, and its front still holds each duplicated block once |
| `DupTable.Claims.Pass1b` | cmd/fsck.c:851-867 | Permutes the table only, reports a duplicated block the first time it is met, and stops when all were reported |
| `DupTable.Claims.Pass4` | cmd/fsck.c:918-935 | Takes one claim back; the bit and n_blks go only with the last claim |
| `InodeWalk.Claim` | cmd/fsck.c:807-847 | A block out of range is skipped; otherwise the claims grow by the block; the inode is broken off exactly at its tenth block out of range, its tenth claimed already, or the copy that the table of 100 cannot take |
| `InodeWalk.IBlock` | cmd/fsck.c:765-799 | On any disk contents and for each of pass1, pass1b and pass4, the walk behind an indirect block comes to the blocks below it in order, follows none outside the volume, and does with them what the pass does, until it is stopped |
| `InodeWalk.CkInode` | cmd/fsck.c:739-762 | The same for all addresses of an inode; special files are passed over |
| `InodeWalk.Phase1` | cmd/fsck.c:438-477 | After phase 1 over all inodes the claims are the blocks they come to, each as often; no inode is broken off exactly if each has fewer than 10 blocks out of range and fewer than 10 claimed already and there are at most 100 copies, and for one that is, the blocks up to that point count |
| `InodeWalk.Phase1b` | cmd/fsck.c:480-490 | The rescan of all inodes reports each block of the table that comes up, once, and changes no claim |
| `InodeWalk.FindDuplicates` | cmd/fsck.c:438-490 | Phases 1 and 1b together report exactly the blocks claimed more than once, each once, whether or not inodes were broken off, which they are exactly beyond those limits |
| `InodeWalk.FitsLimits` | cmd/fsck.c:802-848 | Nothing is broken off in a volume with no bad and no duplicate block |
| `InodeWalk.TwoInodes` | cmd/fsck.c:438-490 | Two inodes whose first address is block 5: phases 1 and 1b report block 5 |
| `InodeWalk.Clear` | cmd/fsck.c:1099-1107 | Clearing an inode takes back exactly the claims of its blocks |
| `InodeWalk.WithoutInode` | cmd/fsck.c:1099-1107 | so that after phase 1 the claims are those of the inodes left |
| `InodeWalk.FileVisited` | cmd/fsck.c:739-799 | In a file in the volume the blocks are come to in just the reverse of the order in which restor's truncation releases them |
| `DirWalk.Fsck.GetBlk` | cmd/fsck.c:1502-1535 | The block is in the buffer, and what the disk with the buffer holds is unchanged |
| `DirWalk.Fsck.Pass2` | cmd/fsck.c:870-915 | One entry counts for the inode it names, a directory named is walked at once, and an entry is removed only if it names no allocated inode or one to be cleared |
| `DirWalk.Fsck.Again` | cmd/fsck.c:890-908 | The state of the inode named decides, looked at once more after it was to be cleared and is not |
| `DirWalk.Fsck.Descend` | cmd/fsck.c:980-997 | The directory is visited and all its entries dealt with |
| `DirWalk.Fsck.CkInode` | cmd/fsck.c:739-762 | The data blocks below the addresses, direct and indirect, are scanned in order until the directory's size is used up |
| `DirWalk.Fsck.IBlock` | cmd/fsck.c:765-799 | Behind an indirect block, read from the disk while directories are being changed on it, the walk comes to the data blocks that were there before, stopped where the size ends |
| `DirWalk.Fsck.DirScan` | cmd/fsck.c:1000-1037 | All entries of a block are dealt with although nested walks reuse the buffer, and the size left is right |
| `DirWalk.Fsck.Phase2` | cmd/fsck.c:510-536 | The walk ends on any graph; the directories still in DSTATE are exactly those not reachable, and each link count is down by the entries naming it in reachable directories; a root that is a file, or has duplicates, is made a directory if the operator agrees |
| `DirWalk.Fsck.Root` | cmd/fsck.c:512-536 | The root's state decides between ending and walking, and is DSTATE then |
| `DirWalk.VisitedReachable` | cmd/fsck.c:870-915 | A directory that was visited is on a path of entries from the root |
| `DirWalk.PathVisited` | cmd/fsck.c:870-915 | Every directory on a path from the root was visited |
| `DirGraph.WalkedThen` | cmd/fsck.c:1012-1035 | Two walks one after the other are one walk, even if the second changes entries the first has seen counted |
| `DirGraph.WalkedInto` | cmd/fsck.c:905-907 | Descending into a named directory is part of dealing with its entry |
| `DirGraph.LinksStay` | cmd/fsck.c:902-904 | Entries dealt with keep counting for the same inodes |
| `DirGraph.LinkMore` | cmd/fsck.c:884-904 | An entry counts as one link to the inode whose number is in its first two bytes, if that is from 2 to the last and allocated |
| `DirGraph.RemovedIno` | cmd/fsck.c:913 | Zeroing an entry's inode number in its block leaves all other entries |
| `DirGraph.DirectoryHas` | cmd/fsck.c:1000-1037 | A directory has the entry at an index of a block exactly if that block is the n-th of its data blocks, in the volume, and 1024 n + 16 index is below its size |
| `FreeCheck.Fsck.Pass5` | cmd/fsck.c:938-967 | An entry out of range or already listed sets fixfree and is counted; another is marked |
| `FreeCheck.Fsck.FreeChk` | cmd/fsck.c:1618-1639 | On any disk, cyclic or corrupt, at most fmax-fmin+DUPTBLSIZE+MAXBAD entries are looked at; no fault and the right count exactly when the list holds every unused block once and does not go on in the block the buffer is marked as holding |
| `FreeCheck.Fsck.Phase5` | cmd/fsck.c:603-657 | The list is accepted exactly when it holds each block outside the block map once and does not go on in the block that fileblk is still marked as holding, whose contents were replaced by the superblock's list |
| `FreeCheck.GoodButReread` | cmd/fsck.c:624-627 | A correct list of a volume with one unused block, turned down for that reason |
| `FreeCheck.Fsck.Interleave` | cmd/fsck.c:1672-1680 | The loops compute the spread of the slots of a cylinder |
| `FreeMake.SpreadIsPermutation` | cmd/fsck.c:1672-1680 | For every step and cylinder size the spread takes each slot exactly once |
| `FreeMake.SpreadSteps` | cmd/fsck.c:1674-1680 | Each slot taken is the first one free from step slots behind the one before, going round |
| `FreeMake.SweepComplete` | cmd/fsck.c:1681-1698 | Going down cylinder by cylinder from the rounded size meets every unused block exactly once |
| `FreeMake.SweepOrder` | cmd/fsck.c:1684-1687 | The blocks come from the highest cylinder to the lowest, and inside one in the order of the slots |
| `Numbers.RoundupLeast` | cmd/fsck.c:167-168 | Rounding up gives the least multiple that is not smaller |
| `FreeCheck.Fsck.PutBack` | cmd/fsck.c:1688-1696 | One block goes on top of the list being built, in the buffer or as a new block of the chain |
| `FreeCheck.Fsck.MakeFree` | cmd/fsck.c:1642-1703 | The rebuilt list holds every unused block once, s_tfree is their number, and no used block is written |
| `FreeCheck.Fsck.SweepAll` | cmd/fsck.c:1684-1698 | The sweep over the cylinders puts every unused block on the list once, in that order |
| `FreeCheck.Fsck.SalvageThenCheck` | cmd/fsck.c:660-665 | A list just rebuilt passes the check without complaint |
| `FreeCheck.Rebuilt` | cmd/fsck.c:1681-1701 | A chain of the swept blocks lists exactly the unused blocks |
| `FreeCheck.Geometry` | cmd/fsck.c:1657-1671 | A spacing asked for with 0 < step <= cylinder <= 500 is the one used; if none is asked for, the superblock's, under the same bounds; else 9 in 400 |
| `MapBytes.SetBit` | cmd/fsck.c:1437-1464 | Setting or clearing a bit of a byte affects that bit only |
| `MapBytes.SetPair` | cmd/fsck.c:1405-1424 | Setting a 2-bit state leaves the other three of its byte |
| `MapBytes.ShortOf` | cmd/fsck.c:1472-1498 | A short stored as two bytes reads back, wrapped to 16 bits |
| `MapPool.Maps.Search` | cmd/fsck.c:1715-1731 | The buffer of the block, or the last one, comes to the front, and no page changes |
| `MapPool.Maps.GetBlk` | cmd/fsck.c:1502-1535 | The page is in front; dirty buffers over the scratch file still make up the same bytes, for any pool of at least one buffer |
| `MapPool.Maps.Poke` | cmd/fsck.c:1399-1499 | Storing a byte through the pool changes that byte of the maps only |
| `MapPool.Maps.Peek` | cmd/fsck.c:1399-1499 | Reading through the pool gives the byte last stored |
| `MapPool.Maps.CopyPages` | cmd/fsck.c:615-621 | Copying page by page with two buffers held copies the whole map |
| `FsckMaps.Tables.DoMap` | cmd/fsck.c:1429-1469 | The block map behaves as a plain array of bits, in core and paged, and the other maps stay as they are |
| `FsckMaps.Tables.DoState` | cmd/fsck.c:1399-1426 | The states behave as a plain array |
| `FsckMaps.Tables.DoLncnt` | cmd/fsck.c:1472-1499 | The link counts behave as a plain array of 16-bit numbers |
| `FsckMaps.Tables.StoreCount` | cmd/fsck.c:1479-1498 | Two bytes stored change that count only, in core and across a page |
| `FsckMaps.Tables.CopyMap` | cmd/fsck.c:613-622 | In phase 5 the free map starts as a copy of the block map |
| `FsckMaps.Tables.DoFMap` | cmd/fsck.c:1439-1442 | The free map, which takes the place of states and counts, behaves as a plain array |
| `FsckMaps.SetupLeavesRoom` | cmd/fsck.c:1194-1252 | The sizes computed leave room for the three maps, and for the free map over the last two |
| `Probe.Prime` | cmd/ld.c:58 | 1103 is prime |
| `Probe.NoCollision` | cmd/ld.c:83-92 | No two of a name's probes can differ by a multiple of 2206 |
| `Probe.ProbesDistinct` | cmd/ld.c:1641-1644 | The 1103 probes h, h+1, h+4, ... of a name are different buckets |
| `SymTab.SearchMisses` | cmd/ld.c:83-92 | A name that is not in a segment leads to an empty bucket unless the segment is full: no botch without a full segment |
| `SymTab.SearchFinds` | cmd/ld.c:1632-1645 | A symbol is found from any probe before its own |
| `SymTab.Located` | cmd/ld.c:1602-1649 | A lookup finds the symbol of a name entered; another name leads to an empty bucket of the current segment, or of the next if it is full |
| `SymTab.HashName` | cmd/ld.c:1611-1614 | The hash in 32-bit arithmetic is the sum modulo 2 to the 31st |
| `SymTab.SymbolTable.SearchSegment` | cmd/ld.c:1627-1645 | The rehash loop with its growing odd step does the quadratic search |
| `SymTab.SymbolTable.Lookup` | cmd/ld.c:1602-1649 | The place of a name over all segments, also when all symbols were taken back; an error needs NSYM names |
| `SymTab.SymbolTable.Enter` | cmd/ld.c:1689-1709 | The symbol table represents a plain map: a new name is added, an old one left; never an enter botch, earlier places remember the same table, and the next place is known again |
| `SymTab.SymbolTable.New` | cmd/ld.c:1697-1703 | A new symbol takes the next slot of the current segment |
| `SymTab.SymbolTable.SymFree` | cmd/ld.c:1651-1676 | The table is again what it was when the place was saved, however many symbols were entered since; with 0 saved it is emptied; a botch exactly if the place is not in the table |
| `SymTab.SymbolTable.Load1` | cmd/ld.c:731-815 | From the first file on, pass 1 merges a file's symbols as into a plain map; a library member that defines nothing wanted is an error exactly when its names do not reach the place saved, and else is cut back to that place; every lookup is restored exactly when the place was 0 or current, only sizes of undefined common symbols having grown |
| `SymTab.SymbolTable.LoadSym` | cmd/ld.c:760-790 | One symbol is merged into the map, and counts as a definition exactly when it is one that was wanted, which is `LinkMap.DefinesResolves` |
| `SymTab.SymbolTable.TakeBack` | cmd/ld.c:808-814 | Cutting back to any place saved: what stays, and when it is all that was there |
| `SymTab.SymbolTable.RejectTwo` | cmd/ld.c:1658-1675 | For any two library members turned down before any symbol is known, the second is a botch exactly when it has fewer names than the first; otherwise as many of its names as the first had stay |
| `SymTab.SymbolTable.RejectExamples` | cmd/ld.c:1658-1675 | A member with one undefined symbol, then one with a local symbol only, which fails, or one with another undefined symbol, which stays |
| `SymTab.SymbolTable.Pass1` | cmd/ld.c:723-815 | A whole pass 1 gives every name its outcome by the symbols of the link (`LinkMap.LinkOutcome`), as long as no member is turned down at a stale place; an error then needs a full segment |
| `SymTab.SymbolTable.PassExample` | cmd/ld.c:723-815 | A file refers to a name and a library member defines it as text at 100: the name is that |
| `LinkMap.MergeOutcome` | cmd/ld.c:768-790 | A name is known if an external symbol has it; it is defined if one of those is not undefined (text after common storage of a size does not count), by the first such symbol, and else its value is the largest size asked for |
| `LinkMap.DefinesResolves` | cmd/ld.c:778-789 | A symbol counts as a definition exactly if it is the first to define a name that was asked for |
| `LinkMap.DefinitionsWanted` | cmd/ld.c:791-815 | A library member is loaded exactly if one of its symbols is such a one |
| `LinkMap.DroppedSizes` | cmd/ld.c:780-783 | Of a member not loaded only the sizes stay with which it refers to names known before |
| `LinkMap.LinkOutcome` | cmd/ld.c:723-815 | So every name has the outcome of all symbols of the files and members loaded, and of those sizes |
| `SymTab.MissedExactly` | cmd/ld.c:1658-1672 | A place is in the table exactly when as many symbols are as its index |
| `SymTab.LeftoverIs` | cmd/ld.c:1658-1672 | What is known after cutting back are the names entered first |
| `SymTab.ListedAll` | cmd/ld.c:1697-1703 | The symbols in their order are the names known, each once |
| `SymTab.CutPut` | cmd/ld.c:1697-1703 | Entering a symbol does not change what an earlier place remembers |
| `Relocate.TwoPasses` | cmd/ld.c:1298-1377 | A field gets the same amount from two passes as from one with the displacements added, symbols resolved in either pass and pc-relative fields included, and is left with the same relocation |
| `Relocate.Composes` | cmd/ld.c:1247-1384 | ld -r followed by ld leaves in every byte of a segment what one ld does, if the passes combine and the segment lies in the output untouched by others (both shown in Relink) |
| `Relocate.AppliedRelocates` | cmd/ld.c:1269-1378 | When fields do not overlap, relocating them in turn adds to each its own amount |
| `Relocate.OverlapsDiffer` | cmd/ld.c:1269-1378 | When they do, relocating all twice can differ from relocating once |
| `Relink.MovedTwice` | cmd/ld.c:1072-1077 | The displacements of a file in an -r link and those of its output add up to those of the file |
| `Relink.SameExactly` | cmd/ld.c:982-984 | Linking an -r output instead of its files puts every file where it would be exactly when the padding of its text moves nothing; text of whole longs suffices |
| `Relink.SymbolsMove` | cmd/ld.c:1110-1125 | Every global symbol has the same value in both links; one defined in the -r output has moved with its segment |
| `Relink.PassesCombine` | cmd/ld.c:1072-1077 | So displacements and symbol values of two passes over a file combine to those of one |
| `Relink.InsideOutput` | cmd/ld.c:1376-1381 | Segments and relocation written end to end: a file's bytes are touched by its own relocation only |
| `Relink.LinkTwice` | cmd/ld.c:1063-1193 | For files between any others, ld -r and then ld leaves the bytes of their text and data segments that one ld of all files leaves |
| `Relink.OtherPass` | cmd/ld.c:1063-1193 | A file that is not one of those joined by ld -r is relocated by the same pass in both links |
| `Relink.LinkOther` | cmd/ld.c:1063-1193 | so its segments too are left with the same bytes |
| `Relink.ValuesAgree` | cmd/ld.c:1169-1174 | A symbol defined once has the same value after middle as in pass 2, and is not taken for multiply defined |
| `Relink.Linker.ReadHdr` | cmd/ld.c:1789-1794 | Displacements start as the addresses the file was assembled for, negated |
| `Relink.Linker.Load1` | cmd/ld.c:747-794 | In pass 1 a file is displaced by the sizes of the files before |
| `Relink.Linker.Middle` | cmd/ld.c:856-892 | The segments start behind one another, at the alignment asked for, as `Relink.Layout` tells |
| `Relink.Layout` | cmd/ld.c:856-892 | The text of the files lies end to end from the base; the data starts at the least aligned place behind it and the bss behind the common storage; each file's data and bss take their size rounded up to longs |
| `Relink.FirstDefinition` | cmd/ld.c:1726-1754 | A name has the type of the first definition, and its value moved with the text, data or bss of that file to where they are; a type of no segment becomes absolute |
| `Relink.Linker.Load2` | cmd/ld.c:1072-1077 | In pass 2 a file is displaced by the start of its segments and the sizes of the files before |
| `Relink.Linker.SymReloc` | cmd/ld.c:1726-1754 | A definition moves with its segment; odd external types become absolute |
| `Relink.Linker.Settle` | cmd/ld.c:895-921 | Between the passes a definition moves by the start of its segment, so that with ValuesAgree it has the value pass 2 computes again |
| `Relink.Linker.Link` | cmd/ld.c:1063-1193 | Over a whole link, every file gets the displacements of its place |
| `Relocate.Relocate1` | cmd/ld.c:1270-1377 | One field, of a byte, a word or a long, has its amount added in as many bits as it has |
| `Relocate.Load2td` | cmd/ld.c:1247-1384 | All fields of a segment are relocated one after the other, overlapping or not, and it fails exactly when some relocation cannot be done |
| `Relocate.LongKeeps` | cmd/ld.c:1253-1367 | 32-bit wrap-around in between does not matter for the field |
| `Relocate.RelocatedOnce` | cmd/ld.c:1269-1378 | A pass determines every byte of the segment it relocates |
| `Relocate.FieldMoves` | cmd/ld.c:1298-1348 | A field moves by what it refers to: a defined symbol's value, or the displacement of the segment; a pc-relative one does so together with its own place, which moves by the displacement of its segment |
| `Relocate.FieldBytes` | cmd/ld.c:1270-1366 | The bytes of a field are in the segment from the lowest on |
| `Decimal.LongerNumber` | cmd/sort.c:625-630 | A nonzero digit where the other number has none outweighs all of it |
| `Decimal.HigherDigit` | cmd/sort.c:621-624 | Compared from the right, the last difference of digits decides |
| `Decimal.EarlierDigit` | cmd/sort.c:636-640 | After the point the first difference decides |
| `SortKeys.CmpWhole` | cmd/sort.c:620-631 | The digits before the points decide the order of the exact values, or are as good as equal |
| `SortKeys.CmpPart` | cmd/sort.c:632-646 | The digits after the points decide what is left, scaled by the sign and rflg |
| `SortKeys.CmpNumber` | cmd/sort.c:596-648 | With -n the sign returned is the order of the exact signed decimal values, for digit strings of any length |
| `SortKeys.CmpText` | cmd/sort.c:649-664 | A text key compares the characters not ignored, coded, up to the end of the field; which those are is `SortOrder.TextParts`, `IgnoredIs` and `FoldIs` |
| `SortKeys.CmpA` | cmd/sort.c:671-686 | Whole lines compare as strings of signed characters |
| `SortKeys.SkipTo` | cmd/sort.c:688-727 | The ends of a key: m fields, blanks, n characters, never past the line |
| `SortKeys.SkipOver` | cmd/sort.c:693-714 | The loops over fields stop at the first separator, or the first blank behind the field, each time |
| `SortKeys.Cmp` | cmd/sort.c:569-669 | The keys in turn; if all agree, 0 with -u and the whole lines without |
| `SortKeys.KeysFirst` | cmd/sort.c:665-668 | So without -u lines with the same keys are in the order of the whole lines |
| `SortKeys.SignOrder` | cmd/sort.c:569-686 | Whatever the options the comparison is a total order of lines, in which only equal lines are alike |
| `SortOrder.LexIs` | cmd/sort.c:671-686 | Of two different strings the one comes first that is a front of the other or smaller at the first difference |
| `SortOrder.PlainKey` | cmd/sort.c:649-664 | Without -f, -d, -i and -n a key decides by the order of its characters as they are, turned round with -r |
| `SortOrder.TextParts` | cmd/sort.c:651-663 | A key is compared character by character in order, each coded or left out by itself |
| `SortOrder.FoldIs` | cmd/sort.c:40-108 | -f makes exactly the two cases of a letter alike, and a bracket and a backslash; capitals and other characters stay as they are, and without -f all do |
| `SortOrder.IgnoredIs` | cmd/sort.c:109-145 | -d leaves letters, digits, blanks and tabs, -i what can be printed and tabs |
| `SortOrder.SkipIs` | cmd/sort.c:688-727 | A key starts or ends n characters behind the m-th field separator or, without one, behind the m-th run of characters that are no blanks, and the blanks after it with -b; nowhere past the line |
| `SortOrder.NumberRead` | cmd/sort.c:596-635 | A numeric key that holds blanks, a minus sign, digits, a point and digits is read as that number |
| `SortOrder.NumberBehindTab` | cmd/sort.c:596-601 | A field separator before the number is passed over |
| `SortOrder.ValueIs` | cmd/sort.c:596-648 | whose value is that of all its digits, read in base ten, over a power of ten |
| `SortOrder.WholeDigit` | cmd/sort.c:607-631 | One digit more makes ten times the value and the digit |
| `SortOrder.FirstKey` | cmd/sort.c:569-669 | The first key by which two lines differ decides, and the whole lines if there is none |
| `SortOrder.PlainOrder` | cmd/sort.c:671-686 | Without options, lines come in ascending order |
| `QuickSort.ScanLow` | cmd/sort.c:857-868 | Elements like the pivot gather around it, smaller ones stay, until one belongs on the other side |
| `QuickSort.ScanHigh` | cmd/sort.c:871-893 | The same from the other end, exchanging across the pivot's likes or moving them up |
| `QuickSort.Partition` | cmd/sort.c:850-910 | The range is split into elements before, like and after the pivot, and is a rearrangement of itself |
| `QuickSort.QSort` | cmd/sort.c:833-911 | The range is sorted and rearranged only; calls nest at most log2(n)+1 deep because the smaller part is called |
| `QuickSort.SortPart` | cmd/sort.c:896-908 | The smaller part is sorted by a call; what is then left to sort is a shorter range |
| `QuickSort.SplitOrder` | cmd/sort.c:896-903 | Elements on different sides of the pivot's likes are in order |
| `SortMerge.Sorter.Sift` | cmd/sort.c:412-417 | The record read last moves to its place among the others, which stay in order |
| `SortMerge.Sorter.Merge` | cmd/sort.c:354-446 | Merging sorted files gives one sorted file of exactly their lines |
| `SortMerge.Sorter.FillRun` | cmd/sort.c:305-333 | The core is filled with the next lines of the input files in turn, up to the limits |
| `SortMerge.Sorter.SortRuns` | cmd/sort.c:291-346 | The input becomes sorted runs, or the output if one run holds it |
| `SortMerge.Sorter.MergeSome` | cmd/sort.c:277-281 | Up to seven files are merged into a new one behind them |
| `SortMerge.Sorter.Run` | cmd/sort.c:271-289 | For any input lines and any run size the program ends and writes a sorted rearrangement of its input, which without options is ascending |
| `SortMerge.OrderUnique` | cmd/sort.c:291-446 | The output does not depend on run size or passes: sorted lines are determined by what lines they are |
| `TopoSort.Sorter.Index` | cmd/tsort.c:114-135 | An item's node is found, or made at the end of the list |
| `TopoSort.Sorter.ReadAll` | cmd/tsort.c:55-69 | The graph read has a node for each item and an edge once for each pair of different items |
| `TopoSort.Sorter.AnyPred` | cmd/tsort.c:102-110 | Tells whether a predecessor is still live |
| `TopoSort.Sorter.Mark` | cmd/tsort.c:187-206 | From a live node, when every live node has a live predecessor, the search never returns NULL and its result lies on a cycle of live nodes |
| `TopoSort.Sorter.FindLoop` | cmd/tsort.c:165-180 | Some live node on a cycle of live nodes; the marks of the search are taken back |
| `TopoSort.Sorter.Output` | cmd/tsort.c:70-85 | Every node is printed once, after its predecessors or off a cycle of nodes not printed; a cycle is reported exactly when there is one |
| `TopoSort.Sorter.TSort` | cmd/tsort.c:42-86 | Every item is printed once, after all that are to come before it, or it was on a cycle of items not printed yet; without a report each first item of a pair comes before the second |
| `TopoSort.OrderAcyclic` | cmd/tsort.c:70-85 | A graph that can be printed in order has no cycle |
| `Rotor.Machine.Probe` | cmd/crypt.c:60-61 | The search for a free partner ends at the first free one, going round |
| `Rotor.Company` | cmd/crypt.c:59-61 | By parity an entry met without a partner has a free one below it, so the first entry never needs one |
| `Rotor.Machine.Pair` | cmd/crypt.c:59-63 | An entry without a partner gets the first one free from a random place on, going round below it, and the number left without a partner stays even |
| `Rotor.Machine.Setup` | cmd/crypt.c:45-67 | For any key t1 is what the random numbers pick, one after the other, from the bytes left, t2 its inverse, and t3 the pairing that the rest of the numbers finds, an involution without fixed points; the seed is that of exact arithmetic, wrapped to 32 bits |
| `Rotor.RandomIs` | cmd/crypt.c:52-53 | A random number is the remainder of the seed by 65521, taken towards zero and as an unsigned number |
| `Rotor.Machine.Exchange` | cmd/crypt.c:55-58 | Two entries of t1 change places |
| `Rotor.CipherTwice` | cmd/crypt.c:83 | At the same positions a byte enciphered twice is itself, and enciphered once is another |
| `Rotor.CipherPartners` | cmd/crypt.c:83 | A byte and the one it is enciphered to are led by the turned rotor into entries that t3 pairs |
| `Rotor.Machine.Run` | cmd/crypt.c:79-91 | The counters give each byte the positions of its place in the input |
| `Rotor.TwiceTheSame` | cmd/crypt.c:79-91 | Enciphering a text twice gives it back |
| `Rotor.Onto` | cmd/crypt.c:65-66 | 256 different table entries below 256 are all bytes |
| `Join.Joiner.JoinGroup` | cmd/join.c:114-137 | Lines with the same join field are joined each with each, in the order of the first file, by going back in the second |
| `Join.Joiner.GroupStep` | cmd/join.c:123-136 | One comparison inside a group: a pair, the end of a row, or the end of the group |
| `Join.Joiner.Run` | cmd/join.c:103-139 | On sorted inputs the pairs printed are the nested-loop join; with -a each line without a partner appears once; the output as a whole is in order of the join field, and it terminates |
| `Join.PairsCount` | cmd/join.c:103-139 | A pair of lines is printed as often as the two lines meet with the same join field, and never otherwise |
| `Join.PairsOrder` | cmd/join.c:103-139 | in the order of the first file, and for one of its lines in the order of the second |
| `Join.CompIs` | cmd/join.c:8 | The order is that of the first difference of the join fields, up to the null character that ends them |
| `Join.JoinUnique` | cmd/join.c:103-139 | Which leaves only one output for two files |
| `Join.GroupEnds` | cmd/join.c:131-135 | When the first file is past the group all pairs of the group are printed and nothing else |
| `Join.RightAlone` | cmd/join.c:107-110 | A line of the second file passed over has no partner |
| `Join.LeftAlone` | cmd/join.c:111-113 | A line of the first file passed over has no partner |
| `Fgrep.Words.EnterWord` | cmd/fgrep.c:250-307 | The keyword can be looked up in the trie and ends in a marked state; other marks are those of other keywords; the table is too small exactly when the keywords so far need more than MAXSIZ nodes |
| `Fgrep.Words.Branch` | cmd/fgrep.c:280-296 | A keyword that goes on differently from a state takes one node more |
| `Fgrep.Words.CGotoFn` | cmd/fgrep.c:246-307 | The marked states are exactly those of the keywords, and each keyword has one; it succeeds exactly if the keywords' prefixes, and those that no keyword goes on from, are at most MAXSIZ |
| `Fgrep.Words.LinkFail` | cmd/fgrep.c:345-360 | The failure link of a state is where its parent's link leads over the same character, or else where the root does, for all nodes of the state, which is marked if the link's is; it is a shorter state whose label is a suffix |
| `Fgrep.Words.CFail` | cmd/fgrep.c:313-365 | Building the links ends, and then every state's link is the one that its parent's final link gives; it leads to a shorter state whose label is a suffix, and a marked state's label ends with a keyword; the queue neither overflows nor is left if there are fewer than QSIZE-1 prefixes, and in a trie of one branch is left exactly from QSIZE states on |
| `Fgrep.Words.OneKeyword` | cmd/fgrep.c:313-365 | With a single keyword the queue's end is left exactly when it has 400 characters or more |
| `Fgrep.Words.LoadRoot` | cmd/fgrep.c:320-328 | The states of the root's edges are queued, as many as there are |
| `Fgrep.Ring.Put` | cmd/fgrep.c:337-344 | The ring of 400 entries is a queue; overflow exactly when 399 are in it, and its end is left exactly when it is empty there |
| `Fgrep.Ring.Get` | cmd/fgrep.c:331-334 | Entries are taken out in the order they were put in |
| `Fgrep.Ring.Load` | cmd/fgrep.c:322-325 | The first entries are put in one after the other up to the limit |
| `Fgrep.Words.Step` | cmd/fgrep.c:157-180 | A text step terminates; it goes over the state's edge, or else over that of its failure link, and to the root only if the root has no edge for the character; the state's label is a suffix of the line read so far |
| `Fgrep.Words.Execute` | cmd/fgrep.c:148-227 | Every line selected without flags is a whole line and holds a keyword, and every line that starts with one is selected |
| `Fgrep.Words.Run` | cmd/fgrep.c:105-117 | The same for the whole program, from the keyword list on, which goes on at least if the keywords have fewer than 399 characters together |
| `KeywordTrie.LeadsLabel` | cmd/fgrep.c:274-296 | A walk over a word leads to the state labelled with it |
| `KeywordTrie.LeadsStays` | cmd/fgrep.c:274-302 | Entering keywords leaves the walks over earlier ones as they were |
| `KeywordCount.NeedNew` | cmd/fgrep.c:274-302 | A keyword takes a node for each new prefix, and one more where it branches off |
| `KeywordCount.NeedMore` | cmd/fgrep.c:274-302 | More keywords never take fewer nodes |
| `KeywordCount.LeavesEmpty` | cmd/fgrep.c:279-292 | The search in the trie leaves the prefixes entered at a node without an edge only if no keyword goes on from there |
| `KeywordCount.PutsFew` | cmd/fgrep.c:330-364 | No state is queued twice: there are at most as many as edges |
| `KeywordCount.PrefixesFew` | cmd/fgrep.c:246-307 | There are no more states than keyword characters |
| `KeywordLinks.LinkedMore` | cmd/fgrep.c:345-360 | Linking the state a node leads to leaves the links of states linked before as they were, as the queue goes by depth |
| `KeywordLinks.StatesApart` | cmd/fgrep.c:336-362 | No two nodes lead to the same state |

## Left out

- restor and fsck: I/O errors, tapes, prompts, messages and exits; an operator's answer is an input, and disks are total maps from block number to block.
- restor and fsck: only the configuration with 1024-byte blocks (sys/h/param.h:110-118), so NINDIR is 256 and NICFREE 178.
- Restor.Volume.DRead: block 0 is not read through the cache, whose slots start as if they held it (cmd/restor.c:79-83).
- Restor.Volume.RestoreFile: the packing of addresses into three bytes.
- Restor.Volume.RestoreThenTruncate: what the free list is after a block already on it was freed again while the list in core was full, which writes over that block; only the count is promised then.
- Restor.Volume.RstrFile: a block beyond the largest file is written over block 0 as the program does; it is not a block of the file.
- FreeCheck.Fsck.MakeFree: the superblock fields that do not concern the list, and write errors.
- InodeWalk.Phase1: inodes of unknown type, link counts below 1, the sizes that are checked, and inodes that change during the walk.
- DirWalk.Fsck.Phase2: a volume where a data block of one directory is an indirect block of one, which the walk could then change under itself; preening, the path names kept for messages, and the 16-bit wrap of link counts (which FsckMaps.Tables.DoLncnt has).
- fsck phase 3: reconnecting orphans; its climb through ".." changes no state and need not end.
- FsckMaps.Tables.CopyMap: needs two buffers when paged, which the program's setup provides.
- SymTab.SymbolTable.Lookup: a full segment may still botch; segments are there from the start, and running out of memory is not modelled.
- SymTab.SymbolTable.Load1: what local symbols add to sizes, string tables, and the names the linker looks up itself.
- Relocate.Load2td: the hash chains from symbol number to symbol are a table, and the overflow warnings end nothing.
- Relink.LinkTwice: fields of a segment do not overlap (`Relocate.OverlapsDiffer` shows why) and every symbol is defined once; where common symbols are put is an input, and -A, -T, -D and page-aligned output are left out.
- SortKeys.Cmp: lines of 512 characters or more, NUL characters and a last line without newline, so reading characters is reading lines.
- QuickSort.QSort: with -u lines found alike are emptied on the way (cmd/sort.c:894-895).
- SortMerge.Sorter.Merge: options -u and -c inside the merge (cmd/sort.c:396-436).
- SortMerge.Sorter.Run: names, creation and removal of temporary files, and with -m a check that the inputs are sorted, which the program does not make either.
- TopoSort.Sorter.ReadAll: an odd number of items, and items longer than the 50-character buffers.
- Rotor.Machine.Setup: makekey, whose 13 characters are the input; entries of the tables are bytes rather than signed characters, as every use takes them modulo 256.
- Join.Joiner.Run: splitting lines and printing fields; blank lines, which the program takes for the end of a file; reading is from files that can be reread.
- Fgrep.Words.CFail: with 399 states or more and branches, whether the queue overflows or is left depends on the order of the states, and no condition is given; what happens after the program has written past its queue; links are not followed further than one failure before the root (cmd/fgrep.c:357-360), so a line may be missed in which a keyword stands later than at the start.
- Fgrep.Words.Execute: flags, and the buffering of the text.
- Fgrep.Words.Run: NUL characters, keywords from a file, several input files and the exit code.
- cmd/512restor.c, cmd/mkfs.c, cmd/icheck.c and the other commands: twins of what is modelled, or easier.
