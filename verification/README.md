# AlbumFS: model and proofs

AlbumFS is a small ext2-like filesystem on a flat array of blocks that is hidden in the low bits of
PNG and JPEG images. This project models both halves of the program, the filesystem and the
embedding, joined by the write-back cache between them, and proves what they promise.

The model follows the program's layers, bottom up:

- `Bitstreams`, `JpegImages`, `PngImages`, `Chunks`: bytes in the low bits of coefficients and colour
  channels, and chunks of bytes with or without a header. `JpegImage` and `RgbaImage` are classes
  that embedding changes in place.
- `PhysicalBlocks`, `Manifests`, `BlockStores`: the block array. `BlockStore` is a class whose
  carriers are loaded when first used and written back when flushed; its ghost `Contents` is the flat
  array it stands for.
- `Bitmaps`, `Geometry`, `Inodes`, `Pointers`, `BitmapBlocks`, `Superblocks`: what lies in the array.
- `Volume`, `Space`, `Files`, `FileOps`, `Mapping`: the volume as a value `Vol` (inode table, data blocks,
  allocated set and, as a proof device, the owner of each block), the pointer tree under every inode seen
  through `T(v, i, slot)`, how many blocks are free and how many a change has to take, and the bytes of files.
- `Dirents`, `DirBlocks`, `Directories`, `DirTree`, `DirRemoval`: records that tile directory blocks, seen as
  maps of names.
- `Namespaces`, `FsTree`, `FsOps`, `Renames`, `Reachability`, `RootedTrees`, `Accounting`: the tree of names and what
  the operations do to it and to the free space.
- `RenamedNames`: when a rename moves one name and leaves all others alone.
- `FailedWrites`, `FailedRuns`, `HoleRuns`, `LostTrees`: what a failed write leaves, runs that show it, a run after
  which a directory cannot be read, and a rename that loses a part of the tree.
- `Album`: the class `AlbumFs` with the program's operations. Its methods run on a `BlockStore` and a
  `Bitmap`; the ghost `vol` is the volume these hold (`Ties`), and the ghost `saved` the one the images hold since
  the last sync (`OnImages`).
- `Mounts`, `Remounting`, `Formatting`, `Steps`, `Runs`: opening, formatting and whole runs.
- `Answers`: what every operation answers, said of the records, names and blocks of a volume and not of the
  searches that find them, for any directory and any file. `Layouts`: where everything stands, said with the offsets
  themselves, and what decoding accepts.

Three invariants carry the results. `Safe` is ownership: every block a pointer slot holds is an allocated
data block and no other slot holds it. Every operation of the filesystem keeps it in every case, also when it
fails half-way. `Exact` adds exact accounting: nothing is allocated that no inode reaches, no pointer table is
empty, block counts are right, nothing is mapped past the end of a file and the bytes there are zero.
`RootedTree` is the tree of names: well-formed directories with unique names, link counts, `..`
entries, one entry for every inode, every inode found from the root. `Runs.PerformAll` carries out any
requests, whatever they ask for and however they end, and keeps `Safe` throughout. Among the requests is that the
program ends without a sync and starts again from the images, which brings back the volume of the last sync.
`Exact` does not depend on what the names say: the only thing that costs it is an operation that runs out of blocks
half-way, and a restart before the next sync undoes that (`Runs.Conserved`, `Runs.Marks`). `RootedTree`
is kept within the scope `Steps.InScope` describes, failures included.

Where the code falls short of what one would expect of it, the model does what the code does and the
exact condition is proved:

- A write succeeds if and only if there are as many free blocks as the data blocks and tables it lacks
  (`FileOps.WriteResult`). One that fails drops its working inode but leaves what it copied under pointers the
  inode already had (`Files.WriteDropped`); the other blocks it took are lost, allocated and reached by no
  pointer (`Files.LeftOver`). Whether what is left shows past the end is decided by offset, data and pointers
  (`FailedWrites.FailedWriteClean`, `TruncateAfterFailureIff`, `WriteAfterFailureIff`);
  `FailedRuns.RefusedWriteShows` is a run, from formatting on, in which it does.
- The blocks such a write has hung under an existing pointer table are mapped but not counted.
  `FailedWrites.CountedSurvivesIff` says when block counts survive. After the run
  `FailedRuns.CountGoesBelowZero` the decrement in the program has taken a count below zero: the model wraps on
  32 bits, as a build without overflow checks does, and a build with them stops there.
- Removing a directory entry adds its length to the last live record even when dead records lie
  between. `DirRemoval.RemovalCorrectIff` says when this is right in one block, `DirRemoval.PagesRightIff` in a
  directory; it always is when there are none in between, and so in the first block of a directory.
  `HoleRuns.HoleBreaks` is a run, from formatting on, after which the root cannot be read. What operations do to
  the names is proved under the condition that there are none (`Removable`); what they do to blocks needs none. A rename takes the old name out last: within one
  directory the condition is about the blocks as they are once the target is gone and the new entry is in the
  first place with room, across directories about the blocks as they were (`Renames.PagesThen`).
  `RenamedNames.RenamedNamesIff` says exactly when any rename of a file or directory moves one name and no
  other.
- A rename does not check whether a directory is moved below itself. `RootedTrees.RenameRooted`: the
  tree stays rooted if and only if it is not. `LostTrees.MoveIntoOwnChild` is a run in which it is.
- A create or mkdir that cannot add the entry after it has taken an inode leaves that inode taken, with no name
  (`RootedTrees.OrphanIsLost`); `Album.AlbumFs.Create` and `Mkdir` say exactly when.
- Link counts are 32 bits wide and wrap; the statements about mkdir, and about renaming a directory to another
  parent, exclude a parent whose count is at its limit.
- Embedding in the JPEG coefficient -32768 still reads back, but changes its sign
  (`JpegImages.PutCoefKeeps`).

## Model
| member | source | states |
|---|---|---|
| Volume.NoSharing | src/fs/album.rs:134-201 | ownership: two pointer slots that hold the same block are the same slot of the same inode |
| Volume.TakeBlock | src/fs/album.rs:118-122 | taking a free block and zeroing it moves no pointer of any inode and keeps ownership |
| Volume.LinkRoot | src/fs/album.rs:141-145 | a free block hung under a direct, single- or double-indirect pointer changes that slot only and is zero |
| Volume.LinkEntry | src/fs/album.rs:159-165 | the same for a block hung under an entry of a pointer table, on any of the three levels |
| Volume.TableWrite | src/fs/album.rs:129-132 | storing one pointer in a table changes exactly the slots it leads to, of one inode |
| Volume.LinkedGrows | src/fs/album.rs:134-201 | growth of one path leaves every logical block of every inode reading as before and every allocated block reachable |
| Volume.LeafReached | src/fs/album.rs:144-145 | mapping one block makes the block count exact again and leaves no pointer table empty |
| Volume.RemovedKeeps | src/fs/album.rs:610-670 | emptying slots keeps ownership, frees exactly their blocks, zeroes the cut logical blocks and no other |
| Volume.RemovedFull | src/fs/album.rs:638-643 | after a removal every pointer table that is left still holds a pointer |
| Volume.CutEntry | src/fs/album.rs:625-645 | clearing one entry of a table that keeps others empties that slot and frees its block |
| Volume.CutSingle | src/fs/album.rs:638-641 | the last entry of the single-indirect table goes together with the table |
| Volume.CutInner | src/fs/album.rs:649-670 | the last entry of an inner table goes together with that table, the outer table keeps others |
| Volume.CutDouble | src/fs/album.rs:649-670 | the last entry below the double-indirect table goes together with both tables |
| Volume.CutShrinks | src/fs/album.rs:610-670 | unmapping a logical block takes exactly that block from what one inode maps, decrements its count exactly when it was mapped and keeps the accounting exact |
| Pointers.PointerAtSet | src/fs/album.rs:124-132 | reading a pointer table after storing one entry: that entry, and the others as before |
| Pointers.AllNull | src/fs/album.rs:638-638 | a table is all zero bytes exactly when all its 504 pointers are null |
| Volume.SlotOfInjective | src/fs/album.rs:134-201 | different logical indices are mapped by different slots |
| Volume.SlotOfIndexOf | src/fs/album.rs:134-201 | every leaf slot maps exactly one logical index below 12 + 504 + 504 * 504 |
| Layouts.MappedWhere | src/fs/album.rs:134-201 | where a logical block is mapped, by the bytes of the tables: twelve pointers in the inode, 504 in the single-indirect table, 504 in each of the 504 tables below the double-indirect one |
| Layouts.WayTo | src/fs/album.rs:134-201 | the pointers on the way to a logical block: one, two or three |
| Album.AlbumFs.Bmap | src/fs/album.rs:134-201 | lookup and allocation on all three levels: the block of the index, an error past the last index; with allocation a block is mapped if and only if as many blocks are free as its path lacks, and on failure there is growth that no contents show |
| Album.AlbumFs.BmapSingle | src/fs/album.rs:148-167 | the single-indirect part, including a table allocated on the way, with the same condition for success |
| Album.AlbumFs.BmapDouble | src/fs/album.rs:169-200 | the double-indirect part, including both tables allocated on the way, with the same condition for success |
| Mapping.MappedIff | src/fs/album.rs:134-201 | a block is mapped if and only if as many blocks are free as its path lacks |
| Space.TakesFits | src/fs/album.rs:118-201 | whatever pointers an operation has filled, there were as many free blocks before it |
| Space.TakesShort | src/fs/album.rs:118-201 | when all blocks are taken and a pointer is still missing, there were fewer free blocks than missing pointers |
| Space.TakesAll | src/fs/album.rs:118-201 | when all missing pointers are filled, exactly as many free blocks are gone |
| Album.AlbumFs.RemoveMappedBlock | src/fs/album.rs:610-670 | unmaps one logical block, frees it and every table left empty, and changes nothing else |
| Mapping.SingleKept | src/fs/album.rs:625-645 | the case of a single-indirect removal in which the table stays |
| Mapping.SingleFreed | src/fs/album.rs:638-641 | the case in which it is freed |
| Album.AlbumFs.AllocateBlock | src/fs/album.rs:118-122 | the lowest data block that was free, now zeroed and allocated; or no data block is free |
| Mapping.InnerKept | src/fs/album.rs:610-670 | the case of a double-indirect removal in which both tables stay |
| Mapping.InnerFreed | src/fs/album.rs:610-670 | the case in which the inner table is freed |
| Mapping.BothFreed | src/fs/album.rs:610-670 | the case in which both tables are freed |
| Geometry.InodeLocation | src/fs/album.rs:85-94 | an inode record never straddles two blocks and lies in the inode table |
| Geometry.LocationsDisjoint | src/fs/album.rs:85-94 | records of different inodes share no byte |
| Geometry.InodeAtStored | src/fs/album.rs:72-83 | writing an inode and reading any inode gives the written one or the old one |
| Layouts.InodePlace | src/fs/album.rs:85-94 | 21 inodes to a block, one after the other from the start of the table |
| Inodes.InodeRoundTrip | src/fs/inode.rs:26-69 | decoding an encoded inode gives it back, every field at any value |
| Inodes.FreeIsZero | src/fs/inode.rs:46-69 | 192 zero bytes are a free inode |
| Layouts.InodeBytes | src/fs/inode.rs:26-44 | the offset of each field of the 192 bytes, and zeros where there is none |
| Layouts.InodeExact | src/fs/inode.rs:46-69 | 192 bytes decode to an inode if and only if they agree with its encoding wherever a field stands |
| Layouts.DirectoryMode | src/fs/inode.rs:71-73 | a directory is what has the type bits 0100 above twelve permission bits; a slot is free when its mode is zero |
| Layouts.LittleEndian | src/fs/inode.rs:26-69 | the value of two, four or eight bytes, low byte first, and no other bytes have it |
| Album.AlbumFs.ReadInode | src/fs/album.rs:72-76 | the stored inode, or an error for numbers outside the table |
| Album.AlbumFs.WriteInode | src/fs/album.rs:78-83 | stores one inode and changes no other part of the volume |
| Album.AlbumFs.AllocInode | src/fs/album.rs:96-103 | the lowest free inode, or there is none |
| Album.AlbumFs.GetAttr | src/fs/album.rs:109-116 | the inode if it is live, an error otherwise |
| Bitmaps.Bitmap.Set | src/fs/bitmap.rs:34-38 | marks one block, and ignores a block out of range |
| Bitmaps.Bitmap.Clear | src/fs/bitmap.rs:40-44 | clears one block and no other |
| Bitmaps.Bitmap.AllocFrom | src/fs/bitmap.rs:52-60 | the lowest free block from a start on is marked, or all are taken |
| Bitmaps.Bitmap.CountFree | src/fs/bitmap.rs:46-50 | the number of blocks that are not marked |
| Bitmaps.Bitmap.IsSet | src/fs/bitmap.rs:30-32 | true exactly for marked blocks |
| Bitmaps.Bitmap.FromBytes | src/fs/bitmap.rs:18-24 | the set of the bits given; missing bytes are clear, surplus bytes ignored |
| BitmapBlocks.WriteBitmap | src/fs/format.rs:464-480 | the bitmap region records exactly the marked blocks and nothing outside it changes |
| BitmapBlocks.LoadBitmap | src/fs/format.rs:453-462 | loads exactly the set the region records, over several blocks, or ends with the error of the first block of it that cannot be read |
| BitmapBlocks.RecordedOnce | src/fs/format.rs:453-480 | a region records one set only, so loading after writing gives the same set |
| BitmapBlocks.RecordedBit | src/fs/bitmap.rs:30-44 | the bit of block b is bit b mod 8, from the low end, of byte b / 8 of the region |
| Album.AlbumFs.Read | src/fs/album.rs:272-296 | the bytes of the range below the size, holes as zeros, and each error case |
| Answers.NoFile | src/fs/album.rs:272-441 | reading, writing and truncating what is not in use is `NotFound`, of a directory `IsDir` |
| Answers.ReadAnswer | src/fs/album.rs:272-296 | of any file: nothing past the end; otherwise each byte from its place in its logical block, unless the last of them lies beyond 12 + 504 + 504 * 504 blocks, which is `BadBlock` of the first such block |
| Album.AlbumFs.Write | src/fs/album.rs:298-330 | the outcome in every case: it succeeds if and only if as many blocks are free as the data blocks and tables it lacks within reach, and all lie within reach; then the effect of `WriteDone`, saved; on failure how far the copying came, what is left of it byte by byte and which blocks it has taken and lost |
| Answers.WriteAnswer | src/fs/album.rs:298-330 | of any file: it succeeds if and only if the range ends below 2^64, the blocks it lacks on the way to mappable blocks are not more than the free ones, and its last block is mappable; each error otherwise |
| Album.AlbumFs.WriteBlocks | src/fs/album.rs:308-322 | the copying loop: the same condition for success; bytes already written, exactly the blocks taken that were missing, exact accounting kept, or the exact state a failure half-way leaves |
| Album.AlbumFs.WritePiece | src/fs/album.rs:311-321 | one turn of that loop: one more block mapped and filled if and only if it lies within reach and as many blocks are free as its path lacks; otherwise the write stops before it |
| Album.AlbumFs.Truncate | src/fs/album.rs:437-462 | fails as `Answers.TruncateAnswer` and `Answers.NoFile` say and then changes nothing; otherwise resizes, notes the time and keeps the exact invariant |
| Answers.TruncateAnswer | src/fs/album.rs:437-462 | of any file: it succeeds if and only if it does not shrink it, cuts between blocks, or cuts inside one of the 12 + 504 + 504 * 504 mappable blocks; otherwise `BadBlock` of the block it cuts |
| Album.AlbumFs.FreeAllBlocks | src/fs/album.rs:672-679 | everything below the size is unmapped and the size is zero |
| Files.WrittenCopy | src/fs/album.rs:318-321 | copying one chunk into its block advances the written range by that chunk and changes no other byte of any inode |
| Files.WriteFinished | src/fs/album.rs:323-328 | a finished write is the splice of the data into the contents, other inodes are untouched and the exact invariant survives |
| Files.WriteDropped | src/fs/album.rs:312-314 | a write that fails half-way keeps ownership although the working inode is lost; of what it copied exactly the bytes stay that lie under a pointer the inode had before, all other bytes of all inodes are as before |
| Files.CleanEndSurvivesIff | src/fs/album.rs:312-314 | such a failure leaves nothing past the end of the file if and only if what was copied under pointers the inode had lies below the size or, inside the last block, is zero |
| FailedWrites.FailedWriteClean | src/fs/album.rs:298-330 | the same of a write that fails, whatever stopped it; inside the file it always leaves the end clean |
| FailedWrites.TruncateAfterFailureIff | src/fs/album.rs:437-462 | a truncate after a failed write resizes the contents if and only if of the bytes copied past the end and below the new size none is not zero and under a pointer the inode had |
| FailedWrites.WriteAfterFailureIff | src/fs/album.rs:298-330 | a write after a failed write is a splice if and only if that holds of the bytes below its offset |
| FileOps.CopiedResult | src/fs/album.rs:308-322 | a write that has copied everything had as many free blocks as it lacked |
| FileOps.AbortedResult | src/fs/album.rs:308-322 | a write that stopped half-way had not, or ran past the last mappable block |
| FileOps.DoneResult | src/fs/album.rs:298-330 | a write leaves as many blocks free as there were, less those it lacked |
| FailedWrites.CountedSurvivesIff | src/fs/album.rs:144-197 | block counts stay exact after a failed write if and only if none of the blocks it had mapped went under a pointer the inode had before; otherwise the count is short of exactly those |
| FailedWrites.CountBelowZero | src/fs/album.rs:437-462 | growing the file and cutting it until nothing is mapped takes the count as far below zero as it was short |
| FailedRuns.CreateFirst | src/fs/album.rs:216-234 | a create on a freshly formatted pool gives inode 2, an empty file, and takes no data block |
| FailedRuns.RefusedWriteShows | src/fs/album.rs:298-330 | the failing run: in a freshly formatted pool with two data blocks create a file, write 100 bytes, write 5000 bytes at 200, which is refused; a read shows the 100 bytes, a truncate to 4000 succeeds, and a read shows the refused bytes |
| FailedRuns.CountGoesBelowZero | src/fs/album.rs:625-640 | the failing run: in a freshly formatted pool with four data blocks create a file, write block 12, write blocks 13 and 14, which is refused after block 13; truncate to 14 blocks and then to zero, and the block count is 2^32 - 1 |
| Files.AllCleared | src/fs/album.rs:672-679 | freeing all blocks of an exactly accounted inode frees exactly its tree: no slot left, block count zero, no other bit changed |
| Files.ShrinkFinished | src/fs/album.rs:442-461 | a shrink zeroes everything it cuts off and keeps the exact invariant |
| Files.ShrinkThenGrow | src/fs/album.rs:437-462 | cutting a file and extending it again shows zeros, never what was cut off |
| Files.ResizedContentsIff | src/fs/album.rs:437-462 | a truncate is a resize of the contents if and only if the bytes it uncovers are zero, whatever state the file is in |
| Files.ResizedContents | src/fs/album.rs:437-462 | on a file with a clean end a truncate is a resize of the contents |
| FileOps.ReadAfterWrite | src/fs/album.rs:272-330 | reading any range after a write shows the old contents, zero-extended, with the data laid over them |
| FileOps.ReadBack | src/fs/album.rs:272-330 | what was written is read back, whatever state the file was in |
| FileOps.WriteSplicesIff | src/fs/album.rs:298-330 | a write is a splice if and only if the bytes between the old end and the offset are zero, whatever state the file is in |
| FileOps.ReadOthers | src/fs/album.rs:298-330 | other inodes read as before |
| Accounting.UsedExactly | src/fs/album.rs:118-201 | under exact accounting the allocated blocks are those before the data region and those some inode reaches |
| Accounting.CountIsMapped | src/fs/album.rs:144-145 | block counts equal the number of mapped blocks, and nothing is mapped past the end |
| Accounting.AllocatedIsMapped | src/fs/album.rs:118-201 | a data block is allocated if and only if some inode has it mapped or needs it as a pointer table on the way to a block it has mapped |
| Accounting.SpaceRestored | src/fs/album.rs:216-361 | create, write and unlink leave exactly the blocks allocated that were, when the directory needed no further block; nothing is asked of other directories or of the names |
| Accounting.RoomKeepsSize | src/fs/album.rs:499-532 | a directory that can be read and has room for the name needs no further block |
| FsTree.Discarded | src/fs/album.rs:672-679 | freeing a file and its inode takes exactly the blocks it owned and keeps the exact invariant |
| Album.AlbumFs.Discard | src/fs/album.rs:353-355 | the same of the program: the record is free and exactly the owned blocks are |
| Album.AlbumFs.FreeBlocks | src/fs/album.rs:54-56 | the number of blocks not allocated |
| Dirents.RequiredLen | src/fs/dirent.rs:15-17 | the least multiple of four that holds header and name |
| Dirents.Decode | src/fs/dirent.rs:48-80 | a decoded record is 4-aligned, large enough for its name and inside the block |
| Dirents.DecodeWritten | src/fs/dirent.rs:34-80 | a record written anywhere in a block is read back |
| Dirents.DecodeFrame | src/fs/dirent.rs:48-80 | decoding depends on the bytes of the record only |
| Dirents.WalkTiles | src/fs/album.rs:473-479 | walking a block succeeds with a list of records exactly when these tile it to its end |
| Dirents.WalkOutcome | src/fs/album.rs:473-479 | for any 4032 bytes the walk ends, with the one possible error or with records that tile the block |
| Layouts.EntryLayout | src/fs/dirent.rs:34-46 | the offset of each field of a record and the zeros behind its name, and which records can stand in a block |
| Layouts.DecodeExact | src/fs/dirent.rs:48-80 | a record is decoded at a place if and only if header and name of its encoding stand there and it ends inside the block |
| Layouts.TextIsUtf8 | src/fs/dirent.rs:71-73 | the UTF-8 form of any text of Unicode scalar values is accepted as a name |
| Layouts.Utf8IsText | src/fs/dirent.rs:71-73 | and whatever bytes are accepted are that of some text |
| DirBlocks.TryInsert | src/fs/album.rs:505-532 | first fit into a dead record or into slack: the bytes that change, and for records that tile the block exactly one more, or none has room |
| DirBlocks.FirstFit | src/fs/album.rs:505-532 | a record goes to the first place with room and no earlier one |
| DirBlocks.PutWalked | src/fs/album.rs:505-532 | what first fit does to a block that records tile: the record goes to the first place with room and one more record tiles the block |
| DirBlocks.TryRemove | src/fs/album.rs:560-587 | the bytes the program changes to take a name out and what a walk then sees up to there, or the name is not in the block |
| DirBlocks.TakeWalked | src/fs/album.rs:560-587 | what a removal does to a block that records tile: the victim goes dead when no live record precedes it, otherwise the last live one swallows its length |
| DirBlocks.TryRedirect | src/fs/album.rs:591-607 | the first live record of the name points to the new inode, all else stays |
| DirBlocks.WalkBlock | src/fs/album.rs:473-479 | the loop collects the records of the walk |
| DirBlocks.InitialWalk | src/fs/dirent.rs:83-91 | the first block of a directory holds exactly `.` and `..` |
| Directories.AddedNames | src/fs/album.rs:484-541 | placing a record under a fresh name adds that name and keeps all others, and names stay unique |
| Directories.RemovedNames | src/fs/album.rs:549-589 | taking a record out of a directory with unique names removes that name and no other |
| Directories.RemovedRecs | src/fs/album.rs:566-574 | with no dead record before the victim, the removal takes out exactly one record and leaves a tiling |
| DirTree.AddedDir | src/fs/album.rs:484-541 | adding an entry keeps a directory well formed and adds exactly one name, in a block with room or in a new one |
| DirTree.AddedPages | src/fs/album.rs:499-540 | in a readable directory the blocks after an addition are those with the entry in the first place with room, or with a block of its own for it when none has room |
| DirTree.RemovedPages | src/fs/album.rs:554-587 | in a readable directory a removal rewrites the first block that holds the name and no other |
| DirTree.RemoveResultTiled | src/fs/album.rs:549-589 | there it succeeds if and only if the name is present |
| DirTree.RoomSuffices | src/fs/album.rs:499-532 | an addition for which a block has room succeeds whatever is free |
| DirTree.RemovedDir | src/fs/album.rs:549-589 | a removal that does not cross a dead record keeps a directory well formed and removes exactly one name |
| DirTree.InFirstBlockRemovable | src/fs/album.rs:549-589 | names in the first block can always be removed: no record there is ever dead |
| DirTree.RedirectedDir | src/fs/album.rs:591-607 | pointing `..` elsewhere changes that binding only |
| DirTree.LookupNames | src/fs/album.rs:203-214 | in a well-formed directory a lookup answers from its map of names |
| DirTree.ListingComplete | src/fs/album.rs:332-343 | a listing shows exactly the names of the directory |
| DirTree.ListingParts | src/fs/album.rs:332-343 | a listing has one element for each live record, in its place among the others, with its inode, name and type |
| DirTree.ListingTargets | src/fs/album.rs:332-343 | where names differ, an inode and type are listed under a name if and only if the name stands for them |
| DirTree.ListedOnce | src/fs/album.rs:332-343 | and no name is listed twice |
| DirRemoval.RemovalResumes | src/fs/album.rs:566-574 | what a walk sees after a removal: the merged record, then the old bytes from where it ends |
| DirRemoval.RemovalCorrectIff | src/fs/album.rs:549-589 | a removal takes out its name and no other if and only if the old block, walked from there, shows the names after the victim |
| DirRemoval.PagesRightIff | src/fs/album.rs:549-589 | the same for a directory: it stays readable and loses that name and no other if and only if the block of the name, walked from there, shows the right names |
| DirRemoval.AdjacentRight | src/fs/album.rs:566-574 | which it does when no dead record lies in between |
| DirRemoval.RemovalMisses | src/fs/album.rs:566-574 | with dead records in between, a walk that resumes at a record up to the victim still finds the removed name |
| DirRemoval.RemovalBreaks | src/fs/album.rs:566-574 | with dead records in between, a walk that resumes in the zero bytes behind the name cannot read the directory any more |
| HoleRuns.LastTaken | src/fs/album.rs:560-587 | such a block: taking the last of its names out leaves one that cannot be walked |
| HoleRuns.FillRoot | src/fs/album.rs:216-234 | 250 creates on a freshly formatted pool fill the first block of the root |
| HoleRuns.ThreeInARow | src/fs/album.rs:484-541 | three more give it a second block that holds exactly these three |
| HoleRuns.HoleArises | src/fs/album.rs:216-361 | unlinking the first two of them and creating a fourth puts a dead record between two live ones |
| HoleRuns.HoleBreaks | src/fs/album.rs:345-361 | the failing run: unlinking the third then succeeds, and no name can be looked up in the root any more |
| Album.AlbumFs.DirectoryEntries | src/fs/album.rs:464-482 | all records of all mapped blocks in order, or the first error |
| Album.AlbumFs.Lookup | src/fs/album.rs:203-214 | the inode of the first live record of the name |
| Album.AlbumFs.Readdir | src/fs/album.rs:332-343 | the listing of `ListingOf`: one element for each live record in order, or the first error |
| Answers.ListingExact | src/fs/album.rs:332-343 | in a well-formed directory the listing succeeds and shows inode and type under a name if and only if the name stands for them, each name once |
| Answers.ListingAnswer | src/fs/album.rs:332-343 | a directory whose blocks can all be read, or are holes, lists their records |
| Answers.LookupAnswer | src/fs/album.rs:203-214 | a lookup there finds the inode of the first live record of the name, or nothing if there is none |
| Answers.EntriesStop | src/fs/album.rs:464-482 | the first block that is no hole and cannot be walked, or lies beyond what can be mapped, is the error of lookup and listing alike |
| Album.AlbumFs.AddDirEntry | src/fs/album.rs:484-541 | the outcome in every case, the errors of an unreadable directory told apart, as `Answers.AddAnswer`, `AddStops` and `AddGrows` say; the entry goes to the first block with room, otherwise to a new one; on failure no record and no contents of any inode have changed, and only the free blocks can be gone, each lost exactly when no pointer the directory had leads to it |
| Answers.RoomInPages | src/fs/album.rs:507-531 | a block has room for a name if and only if one of its records leaves over as many bytes as the entry takes, rounded up to four |
| Answers.AddAnswer | src/fs/album.rs:484-541 | in any directory that can be read: `NoSpace` for a name of more than 255 bytes; success if a record has room; without room `BadBlock` at 12 + 504 + 504 * 504 blocks, `NoSpace` when fewer blocks are free than the way to the next block lacks, success otherwise |
| Answers.AddStops | src/fs/album.rs:500-531 | in one that cannot: the first block that is beyond reach, a hole, or has a record that cannot be decoded before any with room is the error; room before that is success |
| Answers.AddGrows | src/fs/album.rs:533-540 | when no block stops the search and none has room, one more is needed, under the same conditions |
| Answers.AddedRecords | src/fs/album.rs:505-540 | what an addition leaves: the first record with room split in two, or reused when it is dead, and all others as they were; or one more block with one record of 4032 bytes |
| Album.AlbumFs.RemoveDirEntry | src/fs/album.rs:549-589 | the outcome in every case: one removal as the program does it, or the error of the first block that cannot be read before the name, or the name is missing and nothing has changed |
| Answers.RemoveStops | src/fs/album.rs:549-589 | the first block that is beyond reach, a hole, or has a record that cannot be decoded before the name is the error; the name before that is success |
| Answers.RemoveMisses | src/fs/album.rs:588-588 | a name that no block has is `NotFound` |
| Answers.TakenRecords | src/fs/album.rs:560-580 | what a removal leaves of its block: the record goes dead where no live one precedes it, and its length goes to a live one right before it |
| Album.AlbumFs.UpdateDotdot | src/fs/album.rs:591-607 | the outcome in every case: `..` has been redirected in the first block, or nothing changed |
| Answers.TurnAnswer | src/fs/album.rs:591-607 | it succeeds if and only if the first block is there and has a live `..` before any record that cannot be decoded; otherwise `Manifest` |
| Namespaces.OneEntryEach | src/fs/album.rs:216-435 | no inode has two entries |
| Namespaces.CreatedOk | src/fs/album.rs:216-234 | a new file keeps the tree invariant: links, parents, one entry each |
| Namespaces.MadeDirOk | src/fs/album.rs:236-270 | so does a new directory, which adds a link to its parent |
| Namespaces.UnlinkedOk | src/fs/album.rs:345-361 | so does unlinking a file |
| Namespaces.RemovedChildOk | src/fs/album.rs:363-385 | so does removing an empty directory, which takes a link from its parent |
| Namespaces.MovedOk | src/fs/album.rs:387-435 | so does moving an entry, with `..` and the links following a moved directory |
| FsOps.CreateFinished | src/fs/album.rs:216-234 | the steps of create amount to one new file in the tree and the entry in the first place with room, other inodes kept; the accounting stays exact whatever the names say |
| FsOps.MkdirFinished | src/fs/album.rs:236-270 | the steps of mkdir amount to one new empty directory and one more link of its parent; the accounting stays exact whatever the names say |
| FsOps.UnlinkFinished | src/fs/album.rs:345-361 | the steps of unlink amount to one file less, its blocks and only these free; the accounting stays exact whatever the names say, also when the removal crosses a dead record |
| FsOps.RmdirFinished | src/fs/album.rs:363-385 | the steps of rmdir amount to one empty directory less and one link less of its parent; the accounting stays exact whatever the names say |
| FsOps.EntryMoved | src/fs/album.rs:419-420 | entering the new name and taking out the old one keeps the accounting exact, and moves the entry, also within one directory, when the removal crosses no dead record once the new name is in |
| FsOps.LinkTurned | src/fs/album.rs:422-433 | redirecting `..` and adjusting both link counts |
| Album.AlbumFs.Create | src/fs/album.rs:216-234 | the outcome in every case by the volume before, as `Answers.CreateAnswer` says: on a free name it fails without a free inode, and nothing has changed, or when the entry cannot be added, and the first free inode stays taken; otherwise that inode becomes a file with the permission bits asked for |
| Album.AlbumFs.Mkdir | src/fs/album.rs:236-270 | the same for a directory, as `Answers.MkdirAnswer` says: it also fails, with nothing changed, without a free block for the directory, and its entry has one block less to go by |
| Answers.NoDirectory | src/fs/album.rs:203-208 | in what is not in use everything about names is `NotFound`, in what is no directory `NotDir` |
| Answers.Unreadable | src/fs/album.rs:203-365 | where a name cannot be looked up, create, mkdir, unlink and rmdir end with the error of the lookup |
| Answers.CreateAnswer | src/fs/album.rs:216-234 | in any directory that can be read: `Exists`, `NoSpace` without a free inode or for a name of more than 255 bytes, success if a record has room; without room `BadBlock` at 12 + 504 + 504 * 504 blocks, `NoSpace` when fewer blocks are free than the way to the next block lacks, success otherwise |
| Answers.MkdirAnswer | src/fs/album.rs:236-270 | the same of mkdir, which also needs one free block for itself |
| Answers.CreateCost | src/fs/album.rs:216-234 | what a failed create costs: nothing if the name is there or no inode is free; otherwise, even for a name that is too long, the first free inode, and no other record changes |
| Answers.MkdirCost | src/fs/album.rs:236-270 | the same of mkdir, which costs nothing either if no block is free |
| Answers.CreatedName | src/fs/album.rs:216-234 | the new name stands for the new inode as a file, of type 1, and all others for what they did |
| Answers.MadeName | src/fs/album.rs:236-270 | or as a directory, of type 2, which holds `.` for itself and `..` for its parent and nothing else |
| Album.AlbumFs.Unlink | src/fs/album.rs:345-361 | the outcome in every case, that of a directory that cannot be read included: on failure nothing has changed |
| Album.AlbumFs.Rmdir | src/fs/album.rs:363-385 | the outcome in every case: it succeeds if and only if the listing shows `.` and `..` only, the entry can be taken out and the directory is not its own parent; a failure changes nothing but for a directory that is its own child, which is gone |
| Answers.UnlinkAnswer | src/fs/album.rs:345-361 | in any directory that can be read: a name can be unlinked if and only if it stands for a file; `NotFound` and `IsDir` otherwise |
| Answers.RmdirAnswer | src/fs/album.rs:363-385 | it can be removed if and only if it stands for another directory that holds no names but `.` and `..`; `NotFound`, `NotDir` and `NotEmpty` otherwise |
| Answers.RmdirUnreadable | src/fs/album.rs:368-374 | a target that cannot be listed is not removed, with the error of its listing |
| Answers.RmdirCost | src/fs/album.rs:363-385 | a failed rmdir changes nothing, but for a directory that contains itself and nothing else, which is gone |
| Answers.UnlinkedName | src/fs/album.rs:345-361 | after an unlink that crosses no dead record the name is gone and all others stand for what they did |
| Answers.RmdirName | src/fs/album.rs:363-385 | and so after an rmdir |
| Album.AlbumFs.Rename | src/fs/album.rs:387-435 | the outcome of rename whatever its operands: nothing has changed when the names are the same, when a lookup or the kind of the target forbids it, or when the target cannot be removed; after that the steps made and the one that failed are told, with the error; in any case only the inodes named by its operands can have changed |
| Album.AlbumFs.MoveEntry | src/fs/album.rs:414-434 | the part of rename after the target is gone: on success its steps, on failure which step failed, with which error, and what the steps before it left |
| Answers.RenameRefusals | src/fs/album.rs:387-412 | between directories that can be read: `NotFound` when a name stands for nothing, `NotDir` and `IsDir` when the kinds differ, the error of removing the target, each before anything has changed; otherwise the move itself has stopped |
| Answers.RenameFound | src/fs/album.rs:387-412 | and a rename that succeeds has found the old name, and under the new one nothing, the same inode, or one of the same kind |
| Answers.MoveErrors | src/fs/album.rs:414-434 | a move that stops ends with the error of the entry that could not be added, and nothing to see; then of the one that could not be taken out; then of `..` |
| Renames.CarriedPlain | src/fs/album.rs:419-420 | a move that turns no link is the move of one entry |
| Renames.CarriedTurned | src/fs/album.rs:419-433 | a directory that changes parents takes its `..` and its link along |
| Renames.TargetGone | src/fs/album.rs:399-412 | replacing a target removes exactly it and frees exactly its blocks |
| Renames.RenameMoves | src/fs/album.rs:387-435 | a rename within scope is the removal of the target followed by the move of one entry, and keeps tree and accounting |
| Renames.RenamedLookups | src/fs/album.rs:387-435 | exactly one binding moves: found under the new name, gone under the old, `..` names the new parent, every other lookup as before |
| Renames.RenameKeeps | src/fs/album.rs:387-435 | record, blocks and contents of every inode not involved are as before, whatever the operands |
| Renames.RenameMovable | src/fs/album.rs:399-434 | once the target is gone nothing but room for the new name is missing, by what holds of the volume before the rename |
| Renames.FirstBlockMove | src/fs/album.rs:387-435 | names in the first blocks of their directories put a rename within scope |
| Renames.PagesMid | src/fs/album.rs:399-420 | the blocks the old name is taken out of, by the volume before the rename: as they were, or within one directory without the target and with the new entry |
| Renames.StoppedInScope | src/fs/album.rs:399-434 | within scope the only thing to fail after the target is gone is entering the new name, which no contents show |
| RenamedNames.RemovedReads | src/fs/album.rs:549-589 | a removal from a well-formed directory takes out its name and no other if and only if the walk resumes at the right place; the first block and its `..` survive in any case |
| RenamedNames.CarriedNamesIff | src/fs/album.rs:419-433 | entering the new name and taking out the old one moves one name and leaves every directory readable if and only if the block of the old name, once the new one is in, walked from where the walk will go on shows the right names |
| RenamedNames.RenamedNamesIff | src/fs/album.rs:387-435 | the same of a whole rename, by the volume before it, whatever dead records there are around the old name |
| Reachability.MovedRooted | src/fs/album.rs:387-435 | a move keeps every inode below the root if and only if the new parent is not the moved inode and not below it |
| Reachability.RootedGrown | src/fs/album.rs:216-270 | creating below the root stays below the root |
| Reachability.RootedCut | src/fs/album.rs:345-385 | removing what nothing lies below keeps the rest below the root |
| RootedTrees.CreateRooted | src/fs/album.rs:216-234 | create keeps every inode findable from the root |
| RootedTrees.MkdirRooted | src/fs/album.rs:236-270 | so does mkdir |
| RootedTrees.UnlinkRooted | src/fs/album.rs:345-361 | so does unlink |
| RootedTrees.RmdirRooted | src/fs/album.rs:363-385 | so does rmdir |
| RootedTrees.RenameRooted | src/fs/album.rs:387-435 | a rename does if and only if it does not move a directory to itself or below itself; the program does not check this |
| LostTrees.MoveIntoOwnChild | src/fs/album.rs:387-435 | the failing run: on a freshly formatted pool mkdir `a`, mkdir `a/b`, rename `a` to `a/b/x`; every call succeeds and the tree is not rooted any more |
| RootedTrees.LinksAndParents | src/fs/album.rs:236-433 | each directory has two links and one per child directory, and its `..` names the directory that holds it |
| RootedTrees.FileLinks | src/fs/album.rs:216-361 | each file has one link |
| RootedTrees.OrphanIsLost | src/fs/album.rs:216-270 | after a create or mkdir that took an inode and then could not add its entry, not every inode is found from the root |
| Steps.StepKeeps | src/fs/album.rs:216-462 | one operation within scope keeps the rooted tree, also when it fails; failures that change nothing are always within scope |
| Steps.SavedKeeps | src/fs/album.rs:45-48 | and the tree on the images |
| Steps.StepConserves | src/fs/album.rs:216-462 | one operation keeps the accounting exact whatever the names say, a removal across a dead record, a move into a descendant and a failure half-way included, unless a write or the addition of an entry runs out of space on the way |
| Steps.SavedConserves | src/fs/album.rs:45-48 | and the accounting of what the images hold stays exact even then |
| Steps.StoppedRenameConserves | src/fs/album.rs:399-434 | a rename that stops half-way, but not for want of space, has lost no block |
| Runs.RunKeeps | src/fs/album.rs:216-462 | any number of operations within scope keeps the rooted tree, of the volume and on the images, but for an inode that a create or mkdir loses, and that is back after a restart |
| Runs.RunConserves | src/fs/album.rs:216-462 | over any run, whatever its events, the accounting is exact in every volume, and on the images, that no operation has marked that ran out of blocks half-way; a sync hands the mark to the images, a restart takes it from there |
| Runs.Perform | src/fs/album.rs:216-462 | whatever request the program carries out, and however it ends, is a step of a run and keeps ownership, of the volume and of what the images hold |
| Runs.PerformAll | src/fs/album.rs:19-462 | any requests one after the other, reopening and restarts without a sync among them and failures included: ownership holds in every volume on the way from ownership at the start alone; whatever the names say the accounting stays exact, but for what an operation loses that runs out of blocks half-way, which a restart before the next sync brings back; within scope the tree stays rooted |
| Runs.Session | src/fs/format.rs:84-214 | the same from formatting on, where the start is the fresh volume and nothing has to be assumed |
| PhysicalBlocks.BlockRoundTrip | src/fs/mod.rs:66-92 | a physical block, plain or encrypted under any nonce, decodes to its zero-padded payload |
| Layouts.PlainBlockBytes | src/fs/mod.rs:66-74 | the bytes of a plain block: the checksum of bytes 64 on at byte 40, zeros around it, the payload and its padding |
| Layouts.PlainBlockRead | src/fs/mod.rs:76-92 | reading one: `Manifest` for another length, `BlockCrc` if and only if bytes 40 to 43 are not the checksum of bytes 64 to 4095 |
| Layouts.SealedBlockBytes | src/fs/crypto.rs:174-209 | the bytes of an encrypted block: nonce, tag, checksum of the sealed bytes, zeros, the sealed bytes |
| Layouts.SealedBlockRead | src/fs/crypto.rs:211-239 | reading one: it opens under key, nonce and block number, or the one error `Auth` |
| BlockStores.ChecksumError | src/fs/block.rs:164-182 | reading a block of a plain store ends with `BlockCrc` if and only if bytes 40 to 43 of it, as they stand in its carrier, are not the checksum of its bytes from 64 on |
| Manifests.OneCarrierEach | src/fs/block.rs:112-120 | every block below the total lies in exactly one carrier of a contiguous manifest |
| Manifests.ContiguousMeans | src/fs/format.rs:433-451 | which manifests are contiguous: no range is empty, the first starts at block 0, each other where the one before it ends |
| Manifests.ValidateGeometry | src/fs/format.rs:433-451 | accepts exactly the contiguous manifests that add up to the total |
| BlockStores.SectorWritten | src/fs/block.rs:184-210 | overwriting one block of a carrier changes the payload of that block only |
| BlockStores.Flushes | src/fs/block.rs:212-247 | writing a carrier back makes its image hold the loaded bytes and leaves its capacity as it was |
| BlockStores.FlushedOnMedia | src/fs/block.rs:122-162 | after a flush the images alone give every block: dropping all buffers and rereading loses nothing |
| BlockStores.BlockStore.CarrierFor | src/fs/block.rs:112-120 | the carrier a block lies in, or an error past the end |
| BlockStores.BlockStore.EnsureLoaded | src/fs/block.rs:122-162 | loading a carrier is invisible and leaves the images; a carrier that cannot be read is an error and stays as it is |
| BlockStores.ImageRead | src/fs/block.rs:122-162 | what an image has to hold: a chunk under the index and of the size of its range, in a plain store by its header; `Manifest` otherwise, or the error of the codec |
| BlockStores.BlockStore.ReadBlock | src/fs/block.rs:164-182 | the payload of the block, or the error its carrier or its bytes give; reading changes nothing any read gives, nor the images |
| BlockStores.BlockStore.WriteBlock | src/fs/block.rs:184-210 | one payload is replaced, zero-padded, and the images stay; each error case, that of a carrier that cannot be read included |
| BlockStores.BlockStore.Flush | src/fs/block.rs:212-247 | no payload changes and no carrier is left dirty; the image of a clean carrier stays, that of a dirty one reads back as the bytes of the carrier under its chunk index, in a plain store with flags 1 for the primary carrier and 0 for the others |
| BlockStores.BlockStore.NewForFormat | src/fs/block.rs:48-78 | a store in which no block has a payload yet, all images are to be written, and the one of chunk 0 is the primary one |
| BlockStores.BlockStore.FromManifest | src/fs/block.rs:80-110 | a store that gives for every block what its image gives, the error included |
| Mounts.TiedOnce | src/fs/album.rs:19-24 | a block array and an allocated set stand for one volume only |
| Mounts.SameInvariants | src/fs/album.rs:19-24 | the invariants and all contents are those of the volume, whoever is noted as owner |
| Mounts.FlushedImages | src/fs/album.rs:45-48 | after the bitmap is written and the carriers are flushed the images hold the volume |
| Album.AlbumFs.Sync | src/fs/album.rs:45-48 | bitmap and carriers are saved, and the images hold the volume |
| Album.AlbumFs.Open | src/fs/album.rs:20-24 | the filesystem over what the images hold, or the error of the first block of the bitmap that cannot be read |
| Remounting.Remount | src/fs/album.rs:20-48 | ending the program and opening the pool again, without a sync, gives the inodes, blocks, contents and invariants of the last sync; after a sync, those of the volume |
| Bitstreams.SameStream | src/stego/jpeg.rs:237-261 | byte strings with the same bits are the same |
| Bitstreams.EmbeddedAt | src/stego/jpeg.rs:219-233 | each of several different cells ends up with its own bit put into its original value |
| Layouts.StreamBitValue | src/stego/jpeg.rs:217-224 | a stream takes the bits of each byte from the high end |
| JpegImages.PutCoefKeeps | src/stego/jpeg.rs:227-233 | a usable coefficient stays usable and gives its bit back; sign kept and change at most one, but for the most negative value |
| JpegImages.PutCoefExact | src/stego/jpeg.rs:227-233 | the value a coefficient becomes: only the low bit of its magnitude is replaced; the most negative one becomes the largest |
| JpegImages.UsableMembers | src/stego/jpeg.rs:155-169 | the positions are exactly those of non-DC coefficients of magnitude two or more |
| JpegImages.UsableDistinct | src/stego/jpeg.rs:155-169 | no position is listed twice |
| JpegImages.EmbeddingStable | src/stego/jpeg.rs:200-235 | after embedding at usable positions in any order the usable positions are the same list, every bit reads back, no other coefficient changed |
| JpegImages.JpegImage.UsablePositions | src/stego/jpeg.rs:155-169 | the nested loops list exactly the usable positions in order |
| JpegImages.JpegImage.Coefficient | src/stego/jpeg.rs:171-184 | the coefficient at a position, through components and blocks |
| JpegImages.JpegImage.EmbedBytes | src/stego/jpeg.rs:200-235 | all bits of both byte strings are embedded in order; each error case |
| JpegImages.JpegImage.ExtractBytes | src/stego/jpeg.rs:237-261 | the bytes whose bits the coefficients carry; each error case |
| PngImages.PositionsDiffer | src/stego/png.rs:179-185 | different positions are different channels of pixels |
| PngImages.ChannelsKeep | src/stego/png.rs:154-188 | embedding gives every bit back, changes low bits only and no other channel |
| PngImages.RgbaImage.WriteBytes | src/stego/png.rs:154-188 | all bits are embedded in place; opacity is untouched |
| PngImages.RgbaImage.ReadBytes | src/stego/png.rs:190-216 | the bytes whose bits the channels carry |
| Chunks.HeaderRoundTrip | src/stego/mod.rs:184-212 | a chunk header decodes to what it was made from |
| Chunks.HeaderLayout | src/stego/mod.rs:184-193 | the offsets of the sixteen bytes of a header |
| Chunks.HeaderExact | src/stego/mod.rs:195-212 | bytes decode to a header if and only if they start with its encoding |
| Chunks.HeaderErrors | src/stego/mod.rs:195-212 | `NotACarrier` without the magic number, `HeaderCrc` without the checksum |
| Chunks.ArrangedKeeps | src/stego/mod.rs:156-173 | a keyed shuffle keeps positions distinct, in range and from the list |
| Chunks.WriteChunk | src/stego/jpeg.rs:18-69 | fails exactly as `WriteOutcome` says, otherwise rewrites the image with header and payload, for JPEG and PNG |
| Chunks.WritePng | src/stego/png.rs:24-76 | the PNG case |
| Chunks.ReadChunk | src/stego/jpeg.rs:71-120 | the chunk an image holds, or the error, for JPEG and PNG |
| Chunks.ChunkRoundTrip | src/stego/jpeg.rs:18-120 | what was written is read back although the reader works out the positions from the image written to |
| Chunks.PlainChunk | src/stego/jpeg.rs:71-120 | an image holds a plain chunk if and only if the bits of header and payload stand in the low bits at its usable positions, from the first on |
| Chunks.KeyedChunk | src/stego/jpeg.rs:71-120 | and one without a header under a key if and only if the bits of the payload stand there in the order that key and chunk index give |
| Chunks.PlainChunkErrors | src/stego/jpeg.rs:71-120 | why an image is refused as a plain chunk |
| Chunks.KeyedChunkErrors | src/stego/jpeg.rs:71-120 | and as one under a key |
| Chunks.WriteAnswer | src/stego/jpeg.rs:18-69 | a chunk can be written if and only if its mode has the key it takes and each bit of it has a position; each error |
| Chunks.JpegSlots | src/stego/jpeg.rs:155-169 | the usable positions of a JPEG image: coefficients of 2 and more or -2 and less that are not the first of their block |
| Chunks.JpegSlotsOrdered | src/stego/jpeg.rs:155-169 | in ascending order |
| Chunks.JpegBit | src/stego/jpeg.rs:237-261 | each carries the low bit of its magnitude |
| Chunks.PngSlots | src/stego/png.rs:154-188 | those of a PNG image: red, green and blue of every pixel in turn, each carrying its low bit |
| Superblocks.Encode | src/fs/superblock.rs:38-89 | the cursor loops produce header, manifest and a checksum over exactly these bytes |
| Superblocks.Decode | src/fs/superblock.rs:91-193 | the cursor loop decodes as the recursive definition says, each error included |
| Superblocks.SuperblockRoundTrip | src/fs/superblock.rs:38-193 | a well-formed superblock of version 1, 2 or 3 with any carriers is decoded from its encoding, whatever follows it |
| Superblocks.ManifestRoundTrip | src/fs/superblock.rs:68-162 | so is a manifest with names of any length |
| Superblocks.CrcCleared | src/fs/superblock.rs:163-170 | both sides compute the checksum over the same bytes |
| Superblocks.HeaderLayout | src/fs/superblock.rs:38-67 | the offset of each field of the header, by version |
| Superblocks.RangeLayout | src/fs/superblock.rs:68-83 | and of an entry of the manifest |
| Superblocks.ValidNames | src/fs/superblock.rs:256-269 | which names a carrier can have |
| Superblocks.DecodedIff | src/fs/superblock.rs:91-193 | a buffer decodes to a superblock if and only if that is well formed and the buffer starts with its encoding |
| Superblocks.DecodedErrors | src/fs/superblock.rs:91-193 | otherwise `BadMagic` if and only if it is short or starts differently, `SuperblockCrc` if and only if header and manifest are those of a superblock but the checksum is not, `Manifest` in all other cases |
| Formatting.LayOut | src/fs/format.rs:122-134 | carriers are numbered in order and their ranges are contiguous |
| Formatting.UsableParts | src/fs/format.rs:78-118 | of any images exactly those with room for a block are taken, each once and in their order |
| Formatting.RoomForBlocks | src/fs/format.rs:87-94 | an image has room for n blocks if and only if each bit of them, and of the header of a plain chunk, has a position |
| Formatting.PoolParts | src/fs/format.rs:122-135 | the pool has as many blocks as all its images together |
| Formatting.UsableBlocks | src/fs/format.rs:92-135 | whether those without room are counted or left out |
| Formatting.PlanSound | src/fs/format.rs:135-144 | superblock, bitmap, inode table and data partition the pool and each region is large enough |
| Formatting.PlanExact | src/fs/format.rs:135-141 | the sizes of the regions: one block, no more than a bit for each block takes, an inode for every four blocks but at least 64, and no more blocks than these take |
| Formatting.SmallestPool | src/fs/format.rs:142-144 | a pool leaves no room for data if and only if it has at most six blocks |
| Formatting.FreshIsGood | src/fs/format.rs:186-208 | a freshly formatted volume meets every invariant: an empty root and no other inode |
| Formatting.RootRecord | src/fs/format.rs:186-208 | the record of the root, field by field, and which blocks are allocated |
| Formatting.SuperblockFound | src/fs/format.rs:159-184 | block 0 of a plain pool decodes, field by field, to the geometry and the carriers of the pool, the root at inode 1, not encrypted |
| Formatting.Format | src/fs/format.rs:84-214 | fails if and only if there is no room for data, the superblock does not fit its block or a plain carrier would be too long, with that error; otherwise leaves an empty root with all but the reserved blocks and the root block free; the images with room are laid out in order, each carries its range, and block 0 of a plain pool describes the filesystem returned |
| Formatting.FormatAnswer | src/fs/format.rs:135-184 | which pools cannot be formatted, in this order: at most six blocks; plain with more than 196 carriers; plain with a chunk of 2^32 bytes or more |
| Formatting.FirstFlagged | src/fs/block.rs:57-237 | after formatting a plain pool the chunk on the image of index i has flags 1 if i is 0, and flags 0 otherwise |
| Formatting.Populate | src/fs/format.rs:186-208 | bitmap, root directory and inode table over zeroed blocks |
| Formatting.FillRegions | src/fs/format.rs:186-208 | the blocks written, one by one, and the images after the flush |

## Left out
- FUSE, the command line, statistics, passphrases, anchors and the bootstrap block, directory scanning and file names of carriers: adapters around the core.
- The internals of CRC-32, CRC-16, the cipher, the key derivation and the shuffle: they are functions about which `Primitives.Lawful` says all that is used. No claim is made that a checksum detects corruption.
- Reading and writing image files, libjpeg and the image crate: an image is its coefficients or pixels, and these are taken to survive saving. Failures of the operating system are not modelled.
- Crash safety of a flush across several carriers: the program does not offer it. A flush is one step.
- Corrupt carriers above the block store: the store gives an error for a block it cannot read, and opening ends with it when the bitmap is hit, but a filesystem is `Valid` only over a store all of whose blocks can be read (`Blank` is empty).
- The scan that finds carriers and matches them to the manifest when a plain pool is opened; `Album.AlbumFs.Open` starts from images in manifest order.
- The clock is arbitrary: which times an operation notes is modelled, not that they are the current ones. Names are their UTF-8 bytes.
- The text of error messages; which error it is, is modelled.
- The prefix operations of the codecs, which only the bootstrap block uses.
- Overflow of a byte length times eight, which needs a slice of more than 2^61 bytes.
- Formatting.Format: an oversized plain carrier is reported before any image is touched, where the program finds it when it writes that carrier; the pool sizes are assumed to add up to less than 2^64 blocks.
- Album.AlbumFs.Open: which slot a block hangs under is not stored; an assignment that makes the volume safe is taken if there is one. The geometry is an argument, and when a block other than the bitmap's cannot be read, nothing is promised of the operations on what was opened.
