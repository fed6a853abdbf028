# A block file system and its tools

A Dafny model, with proofs, of a small file system: a disk of 4096-byte blocks, a superblock, a bitmap kept in memory
and written to block 1, one-block inodes with 1019 direct pointers, and directories of 128 fixed slots per block. The
file system is `homework.c`; `gen-disk.py` makes images, `read-img.py` walks and checks them, `diskfmt.py` holds the
format and a second bitmap.

## How it is built

- `Words`, `Format`, `Bits`: bytes, words, inodes, directory entries, the two bitmaps, first-fit allocation. A block of
  the disk is a `Sector`: its 4096 bytes together with the two structures the code casts them to.
- `Image`: what an image means. A certificate (`Cert`) gives every block in use its one role: the root, the entry of one
  slot of one directory at one depth, or the k-th data block of one inode. `Tree(d, C)` says that C is exactly what the
  image links and owns. `Lookup(d, p)` is the namespace a user sees.
- `Change`: how a tree changes when one slot is linked, cleared or renamed, or a file gets another table.
- `Paths`: splitting, lexical resolution, and the walk of `translate` with its stack of parents.
- `Ops`: each operation as a function from a state to a return code, the list of its block writes in order, and the new
  bitmap. `Keep`: the invariant `Inv` and what it means to be safe after every prefix of the writes.
- `Making`, `Removing`, `Editing`, `Renaming`, `Writing`: what each operation keeps and does to tree, namespace and
  bitmaps. `Codes`: exactly when each one succeeds. `Limits`: where the code stops doing what its documentation says, and
  exactly when. `Witnesses`, `Edges`: small disks on which each of these limits is met.
- `Refining`: every operation is one step on the map from paths to objects, and every run a run of steps. `Runs`: the
  invariant over all runs, exact accounting, statfs. `Crashes`: power cuts and remounts. `Inside`: no write leaves the
  disk or touches the superblock. `Undo`: operations that take each other back. `Splitting`: one write split in two.
  `Viewing`: read, readdir, getattr. `Literal`: an image in literal bytes, mounted and looked at.
- `Device`, `Parsing`, `Loops`, `Mounted`: the code in its own form, a class with a disk and a
  bitmap array whose methods run the loops of `homework.c` and are proved to do what the functions of `Ops` say.
- `Diskfmt`, `Checking`, `Generating`, `Imaging`: the Python side, likewise with the state it changes in place; `Imaging`
  follows an input to the image and to the namespace of that image.

The invariant `Inv(s, C)`: the disk alone has a superblock with the magic number and its own size, is a tree whose
blocks are all marked in block 1, and has blocks 0 and 1 marked; and no block that is marked on the disk is free in
memory. Lemmas about an operation take the certificate before it and return the one after it. Proofs start with `hide`
and call small lemmas that unfold one definition each; many lemmas named `...Is` or `...Parts` do nothing else.

Where the code and its comments disagree, the model follows the code, and the disagreement is a theorem: `..` below
depth one (`Paths.LandsRight`), names of more than 26 bytes (`Limits.CreateFinds`, `Limits.CreateNeedsPlace`), a rename
destination in a later block (`Limits.RenameSeesDestination`), a directory of several blocks in rmdir
(`Limits.RmdirNeedsEmpty`), a full parent directory (`Making.CreateKeeps`), a write that ends in an earlier block than
the file (`Writing.WriteKeeps`), the order of writes in fs_write (`Crashes.CutWrite`), and the free count of statfs
(`Runs.StatfsReports`). Each says exactly when the code goes wrong, and `Witnesses` or `Edges` has a call for each that
does, on an image that mounts. `Limits.AsksExactly` sums up what breaks an image. chmod sets the new mtime after it has
copied the inode, so it is not stored.

## Model

| member | source | states |
|---|---|---|
| Format.InodeRoundTrip | fs5600.h:40-48 | An inode copied into a block and read back is the same inode, field by field, for all 1019 pointers and negative sizes too. |
| Format.BlockRoundTrip | fs5600.h:40-48 | Any 4096 bytes read as an inode and written back are the same bytes: a struct fs_inode covers the block without a gap. |
| Format.PutThenGet | fs5600.h:24-28 | Overwriting one directory entry in a block is seen at that entry and at no other. |
| Format.StoredNameReadsBack | homework.c:535-536 | strncpy and the NUL at byte 26 store a name that strcmp reads back as the name cut to 26 bytes, whatever the slot held. |
| Format.PatchIsPut | homework.c:531-537 | Changing an entry of the struct view of a block and writing it is changing its 32 bytes. |
| Format.InodeReads | fs5600.h:40-48 | A block is read as a given inode if and only if its bytes hold it: uid at 0, gid at 2, mode at 4, ctime at 8, mtime at 12, size at 16 in two's complement and pointer k at 20 + 4k, each with the least significant byte first. |
| Format.InodeWrites | fs5600.h:40-48 | The block an inode is written as is the one block whose bytes hold it so. |
| Format.EntryReads | fs5600.h:24-28 | Entry r of a block is read as a given entry if and only if its bytes hold it: the flag is the lowest bit of byte 32r, the inode number lies in the 31 bits above it, and the name begins at byte 32r + 4. |
| Format.EntryWrites | fs5600.h:24-28 | An entry is written as those bytes, and no other byte of the block changes. |
| Format.SuperblockBytes | fs5600.h:32-38 | A superblock begins with the bytes 35 36 30 30 and the size, the rest is zero. |
| Format.KindBits | diskfmt.py:39-47 | A mode is that of a directory, or of a regular file, if and only if its fourth hexadecimal digit is 4, or 8. |
| Bits.SetThenTest | homework.c:54-65 | bit_set and bit_clear are seen by bit_test at their block number and at no other. |
| Bits.BitAt | homework.c:54-65 | bit_test of block i is binary digit i % 8 of byte i / 8 of the map. |
| Bits.MarksDetermineMap | homework.c:54-65 | Two bitmaps with the same marked blocks are the same 4096 bytes. |
| Bits.FirstFree | homework.c:477-485 | The scan returns the least unmarked block from its start on, or 0 exactly when there is none. |
| Bits.TakeFacts | homework.c:1208-1229 | k rounds of first-fit take distinct unmarked blocks, mark just those, and fall short only when every block is marked. |
| Bits.TakeComposes | homework.c:1208-1229 | Taking a and then b blocks takes the same blocks, in the same order, as taking a + b. |
| Bits.WordSetThenGet | diskfmt.py:26-37 | bitmap.set is seen by bitmap.get at its block number and at no other. |
| Bits.LanguagesAgree | diskfmt.py:24-37 | The little-endian bytes of the Python words have, under the C bit test, the marks that bitmap.get sees, for every block below 32768. |
| Bits.SetsAgree | diskfmt.py:30-37 | Setting or clearing in Python and then taking the bytes is setting or clearing in C. |
| Diskfmt.Bitmap.Get | diskfmt.py:26-29 | get returns the mark that the C code reads from the same bytes. |
| Diskfmt.Bitmap.Set | diskfmt.py:30-37 | set changes the bytes as the C bit_set or bit_clear does. |
| Image.StepFinds | homework.c:212-236 | In a tree, scanning a directory for the name of a live slot finds that slot and its inode. |
| Image.WalkReaches | homework.c:185-241 | Walking the path read off the certificate of a live inode leads to it. |
| Image.WalkIsPath | homework.c:185-241 | Whatever a walk leads to is live and has exactly that path: no inode has two paths. |
| Paths.ParentRoundTrip | homework.c:436-443 | The parent string of a resolved path is parsed back to the path without its last component. |
| Paths.ParentFits | homework.c:436-443 | For up to ten names of up to 27 bytes the parent string and its NUL fit in 256 bytes. |
| Paths.SplitTokens | homework.c:150-155 | Tokens are not empty and contain no slash. |
| Paths.SplitConcat | homework.c:150-155 | Splitting a string is splitting the two parts around any of its slashes, however many stand together. |
| Paths.ComponentsCut | homework.c:150-157 | Of a path of more than ten names pathparse hands out the first ten, whatever follows; of a shorter one all. |
| Paths.ResolvedNames | homework.c:263-290 | Resolution yields only names of the path, none of them a dot or a double dot, and never lengthens it. |
| Paths.ResolveCanonical | homework.c:263-290 | A path without dots resolves to itself. |
| Paths.TranslateIsWalk | homework.c:185-241 | On a path without dots translate is the plain walk, error codes included. |
| Paths.TraceLands | homework.c:185-241 | The loop invariant of translate: the current inode and every inode on the stack are where the walk of the names that the stack stands for ends. |
| Paths.LandsRight | homework.c:191-197 | The stack lands a path where lexical resolution says if and only if its last `..` is met at depth at most one; otherwise it lands strictly nearer to the root. |
| Paths.TargetWalks | homework.c:165-250 | Whenever translate succeeds, the inode it returns is live and lies at the one path that its stack stands for, faithful or not. |
| Paths.TranslateVersusResolve | homework.c:165-250 | Whenever translate succeeds, it agrees with walking the output of resolve_path if and only if the path is faithful in that sense. |
| Paths.ShallowIsFaithful | homework.c:191-197 | `..` at depth one or less never goes wrong. |
| Paths.DotDotAtDepthTwo | homework.c:193-194 | The shortest path that goes wrong: a/b/.. lands on the root and not on a. |
| Change.LinkTree | homework.c:522-545 | Linking an inode laid out in free blocks from a free slot, under a name the directory lacks, keeps the tree. |
| Change.UnlinkTree | homework.c:755-760 | Clearing the one slot that links an inode takes it, everything below it and all their blocks out of the tree, whatever lies below, and leaves a tree. |
| Change.SubtreeUnique | homework.c:755-760 | What lies at and below an inode is determined by the tree: any two sets closed downwards from it are the same. |
| Change.RenameTree | homework.c:992-997 | Giving a live slot another good name that its directory lacks keeps the tree. |
| Change.RetableTree | homework.c:1094-1106 | A file may be given any other size, table of free or own blocks, and bytes: the tree keeps its shape. |
| Making.CreateKeeps | homework.c:426-548 | create keeps the invariant and is safe after every write; success adds just an empty file on one new block, at the resolved path with its last name cut to the 26 bytes that are stored; it loses the first free block if and only if the path is vacant, there is such a block and the parent is full; any failure leaves tree and namespace as they were. A success needs the cut name not to be taken. |
| Making.MkdirKeeps | homework.c:559-692 | mkdir likewise, with an empty directory on two new blocks, which are what it loses, if and only if the path is vacant, both are there and the parent is full. |
| Removing.UnlinkKeeps | homework.c:698-788 | unlink removes just that file, frees its inode and every block of it, loses none, and is safe after every write; a failure changes nothing. A success needs a faithful path. |
| Removing.UnlinkIsDefined | homework.c:698-718 | A path that resolves to nothing leads translate to the root if anywhere, so unlink never gets to the last component of such a path. |
| Removing.RmdirKeeps | homework.c:794-889 | rmdir takes the directory and everything below it out of the namespace and nothing else, is safe after every write, and frees inode and first block; it loses exactly the other blocks of all it takes out, which are none if and only if the directory has one block; just that object goes when no block of it holds an entry. A success needs a faithful path. |
| Removing.BeneathIs | homework.c:855-884 | The blocks of all that is found at and below a directory are exactly what leaves the tree with it. |
| Removing.OneBlockEmpty | homework.c:808-821 | Looking at the first block is enough for a directory of one block. |
| Editing.TruncateKeeps | homework.c:1073-1118 | On every path, truncate to 0 empties just the file that translate leads to, frees all its blocks and is safe after every write; any failure changes nothing. |
| Editing.ChmodKeeps | homework.c:1021-1043 | On every path, chmod changes the mode of the one object that translate leads to and nothing else, no mtime either; the nine permission bits become the given ones, the four of the kind stay, all others are 0. |
| Editing.UtimeKeeps | homework.c:1045-1066 | On every path, utime changes the mtime of the one object that translate leads to. |
| Renaming.RenameKeeps | homework.c:904-1012 | rename moves the whole subtree to the destination, its name cut as stored, by one block write, with every inode and byte below it; a failure changes nothing. A success needs that place to be free or the source itself. |
| Renaming.MovedSubtree | homework.c:989-1008 | After a move, for a subtree of any depth, what was at source/rest is at destination/rest, and nothing is left at source/rest. |
| Bytes.DataByte | homework.c:1231-1256 | After the write loop a byte of a page is the data where the write covers it and what it was elsewhere, partial first and last blocks included. |
| Bytes.DataElse | homework.c:1231-1256 | At every prefix of the write loop, blocks that are none of the file's pages hold what they held. |
| Writing.Pigeonhole | homework.c:1208-1229 | The blocks of a file and the blocks first-fit can still find are together at most the disk size less five. |
| Writing.RoomOnSmallDisks | homework.c:1199-1229 | On a disk of at most 1024 blocks no write of any length or offset overruns the 1019 pointers, even when the count of needed blocks wraps around. |
| Writing.BoundedOnSmallDisks | homework.c:1185-1229 | On a disk of at most 1024 blocks every write, on any path, at any offset and of any length, either fails before the allocation loop or stays inside the pointer table. |
| Writing.NeededIs | homework.c:1199-1206 | The unsigned difference either is the number of blocks the file lacks, or, when the write ends in an earlier block, more than any disk has. |
| Writing.WrittenContent | homework.c:1194-1268 | A successful write turns contents c into c[..off] + data + what lay behind; no stale byte of a reused block shows. |
| Writing.WriteKeeps | homework.c:1181-1270 | On every path write keeps the invariant; it succeeds if and only if the target is a file, the offset lies inside it, the write does not end in an earlier block than the file and the blocks it lacks are free; it then splices just that file. Without space it marks every free block, in memory only; every other failure changes nothing. |
| Writing.WriteCrash | homework.c:1260-1268 | After each prefix of the writes of a successful fs_write the disk can be mounted, except when new blocks were taken and the bitmap is the one write missing. |
| Writing.WriteAlone | homework.c:1231-1268 | At no prefix of a write, mountable or not, does any other path show anything new or lead to another inode. |
| Splitting.SplitWrites | homework.c:1194-1268 | Writing a and then b behind it leaves the same disk and bitmap, to every pointer, block number and byte, as writing a + b; the time of the first write leaves no trace. |
| Codes.CreateCodes | homework.c:447-547 | create succeeds if and only if the parent is a directory with a spare slot, the path is vacant and a block is free; EEXIST if and only if the path is taken; ENOSPC if and only if a block or slot is missing; otherwise it passes on why the parent is not found, or ENOTDIR for a file in its place. |
| Codes.MkdirCodes | homework.c:580-691 | The same for mkdir with two blocks, and EOPNOTSUPP exactly for a full parent. |
| Codes.WalkSays | homework.c:199-239 | A walk that fails stops at one component: with ENOTDIR when a file is there, with ENOENT when a directory lacks the name. |
| Codes.TranslatePasses | homework.c:165-250 | On every path, with dots or without, translate succeeds if and only if each name of it is found where the stack has got to. |
| Codes.TranslateCodes | homework.c:199-239 | On every path translate fails with a code if and only if some component is the first that is not found and the code is -20 for a file in its way and -2 for a directory that lacks it. |
| Codes.TouchCodes | homework.c:1021-1066 | chmod and utime succeed on exactly the paths that translate does, and else return its code. |
| Codes.UnlinkCodes | homework.c:698-788 | On every path, the root included: translate's own code if it fails, EISDIR if and only if it finds a directory, and for a file the code of walking to the parent of the resolved path, 0 if that is a directory. On a faithful path unlink succeeds if and only if a file is found. |
| Codes.RmdirCodes | homework.c:794-889 | On every path: translate's own code if it fails, ENOTDIR for a file, ENOTEMPTY if and only if a directory is found whose first block is not empty, and else the code of walking to the parent of the resolved path, 0 if that is a directory. On a faithful path rmdir succeeds if and only if a directory with an empty first block is found. |
| Codes.TruncateCodes | homework.c:1073-1092 | On every path, truncate succeeds if and only if the length is 0 and a file is found; EINVAL if and only if the length is not 0. |
| Codes.RenameCodes | homework.c:908-1011 | For every pair of paths: ENOENT if translate does not find the source; else rename succeeds if and only if the resolved paths lie in one directory that has the source and nothing else that the scan reaches is at the destination; EEXIST if and only if something is, EINVAL if and only if the directories differ, EOPNOTSUPP, ENOTDIR and ENOENT each exactly otherwise. |
| Codes.WriteCodes | homework.c:1185-1224 | On every path, write succeeds if and only if a file is found, the offset lies inside it, the write does not end in an earlier block, and no more blocks are missing than are free; EINVAL, EISDIR and ENOSPC each exactly otherwise. |
| Limits.CreateFinds | homework.c:535-536 | A file that create has made is found under its own path if and only if the name has at most 26 bytes. |
| Limits.MkdirFinds | homework.c:679-680 | The same for mkdir. |
| Limits.CreateNeedsPlace | homework.c:468-536 | After a create that succeeds the disk can be mounted if and only if the name has at most 26 bytes or what it is cut to was not taken; otherwise two entries carry one name. If it can, just the file has been added, where its name is stored. |
| Limits.MkdirNeedsPlace | homework.c:600-680 | The same for mkdir. |
| Limits.RenameNeedsPlace | homework.c:950-1009 | After a rename that succeeds the disk can be mounted if and only if the place where the destination name is stored was free or the source itself. |
| Limits.RenameSeesDestination | homework.c:962-1009 | For a destination of at most 26 bytes that is so if and only if the destination did not lie in a later block than the source; otherwise two entries share a name. |
| Limits.UnlinkNeedsFaithful | homework.c:698-788 | After an unlink that succeeds the disk can be mounted if and only if translate got the path right; otherwise a file that is still linked has lost its blocks. |
| Limits.RmdirNeedsFaithful | homework.c:794-889 | After an rmdir that succeeds the disk can be mounted if and only if translate got the path right, whatever lies in later blocks of the directory. |
| Limits.RmdirNeedsEmpty | homework.c:808-821 | An rmdir that succeeds leaves a mountable disk and takes away one object only if and only if translate got the path right and no block of the directory holds an entry. |
| Limits.AsksExactly | homework.c:426-1270 | For every operation with arguments as the kernel and pathparse hand them out, and a write that stays inside the pointer table: the disk can be mounted afterwards if and only if the call failed or met its one condition (a new name whose cut form is not taken, a faithful path for unlink and rmdir, a free place for rename). Nothing else breaks the tree. |
| Witnesses.SmallMounts | homework.c:73-102 | The disk of the following calls, given block by block with its superblock, is one that fs_init mounts, into the state they start from. |
| Witnesses.LongNameCreated | homework.c:468-536 | A name of 27 bytes beside an entry of its first 26: create returns 0, the file is not found under its name, and the disk cannot be mounted. |
| Witnesses.LongNameMade | homework.c:600-680 | The same with mkdir. |
| Witnesses.RenamedOverUnseen | homework.c:962-1009 | rename onto a name in a later block of the directory returns 0 and leaves a disk that cannot be mounted. |
| Witnesses.RenamedOverCut | homework.c:962-1009 | So does rename onto a name of 27 bytes whose first 26 are taken. |
| Witnesses.UnlinkAstray | homework.c:193-194 | unlink of a/g/../f returns 0 and leaves a disk that cannot be mounted. |
| Witnesses.RmdirAstray | homework.c:193-194 | So does rmdir of a/g/../a. |
| Witnesses.RmdirLosesFile | homework.c:808-821 | rmdir of a directory with a file in its second block returns 0, and the file is gone with it. |
| Witnesses.RmdirLosesBlocks | homework.c:808-884 | With it go the inode of that file and the second block of the directory: they stay marked and are in use nowhere. |
| Witnesses.WriteTorn | homework.c:1260-1268 | One byte written to an empty file makes three block writes; after the first two the disk cannot be mounted. |
| Witnesses.WriteUsesUp | homework.c:1199-1224 | Writing nothing at the start of a file of one block fails with ENOSPC on a disk with two free blocks, and no block is free afterwards. |
| Witnesses.StatfsWraps | homework.c:1276-1306 | After that statfs reports 2 to the 64 less 2 free blocks. |
| Edges.FullForCreate | homework.c:477-547 | In a root directory of 128 files, with two free blocks, create fails with ENOSPC and one free block is left. |
| Edges.FullForMkdir | homework.c:608-691 | There mkdir fails with EOPNOTSUPP and none is left. |
| Edges.PastTheTable | homework.c:1199-1229 | On a disk of 1025 blocks with one empty file a write of 1020 blocks overruns the pointer table: 1024 blocks is the exact bound. |
| Refining.CallRefines | homework.c:426-1270 | Every operation on every state with the invariant is one step on the map from paths to directories and byte strings: the step of its name if it succeeds, no step if it fails. New names count as stored, edits go where translate leads, and a subtree goes with rmdir; on ordinary paths these are the resolved path and the one directory. |
| Refining.OrdinaryPaths | homework.c:165-293 | For names of at most 26 bytes the stored path is the resolved one, and translate leads to it if and only if the path is faithful. |
| Refining.RunRefines | homework.c:426-1270 | Every run, failures and all, is a run of such steps. |
| Refining.MovesIs | homework.c:950-1009 | A move on inodes is a move on the map: every path at or below the destination shows what was below the source, nothing is left there, and every other path shows what it showed. |
| Runs.CallKeeps | homework.c:426-1270 | Every operation that fails, or that meets the one condition of `Limits.AsksExactly`, keeps the invariant and accounts for its blocks to the last one: what joins and leaves the tree is counted, and what is lost is named by conditions before the call; all but write do so safely at every block write. |
| Runs.RunKeeps | homework.c:426-1270 | Every run of such operations, failures and all, keeps the invariant. |
| Runs.RunAccounts | homework.c:477-1268 | In every run the blocks used up beyond those at the start are exactly those its calls lose, none is lost twice, and the free count changes by exactly what the calls took, freed and lost: -1 create, -2 mkdir, -(new - current) write, +blocks truncate, +1+blocks unlink, +2 rmdir. |
| Runs.WritesAsk | homework.c:1181-1270 | On a disk of at most 1024 blocks every write may stand in a run, whatever its path and offset. |
| Runs.ExactRun | homework.c:477-1268 | A run that starts with both bitmaps at exactly blocks 0, 1 and the blocks in use ends so if and only if no call of it loses a block. |
| Runs.FreeChange | homework.c:1295-1302 | What the tree gains in blocks and what is lost, the free blocks lose. |
| Runs.StatfsReports | homework.c:1276-1306 | f_bfree is two less than the free blocks, and wraps to a huge count exactly when fewer than two are free. |
| Crashes.InitReads | homework.c:73-102 | A mount succeeds if and only if the first four bytes of block 0 are 35 36 30 30 and the next four give the size of the image; it then has the image and, as its bitmap, block 1 unchanged. |
| Crashes.CutIsAtomic | homework.c:493-1112 | Every operation but write, cut after any number of its block writes, leaves a disk that fs_init mounts, superblock test included, with the invariant, and that shows the namespace of before or of after. |
| Crashes.CutWrite | homework.c:1260-1268 | A write cut after any number of its block writes leaves a mountable disk if and only if it is not torn between the inode and the bitmap of new blocks. |
| Crashes.StoryKeeps | homework.c:73-102 | In every run of operations and power cuts, as long as no write is torn, every mount succeeds, superblock test included, and the invariant holds at the end. |
| Inside.CallInside | misc.c:41-56 | Every block write of every operation goes to a block of the disk other than the superblock, whatever the call returns and whether or not it breaks the tree. |
| Inside.HeadSurvives | misc.c:48 | So the superblock is the same after each of them, cut after any number of its writes. |
| Inside.RunHead | misc.c:48 | It is the same after every run. |
| Inside.StoryHead | misc.c:48 | It is the same after every run with power cuts and mounts in between. |
| Undo.CreateUndone | homework.c:477-782 | create, any successful writes, and unlink restore the bitmap byte for byte and the namespace. |
| Undo.MkdirUndone | homework.c:608-884 | mkdir and rmdir restore the bitmap byte for byte and the namespace. |
| Undo.CreateUnlinkUndone | homework.c:477-782 | On a path without dots the unlink after create and successful writes succeeds and restores bitmap and namespace. |
| Undo.MkdirRmdirUndone | homework.c:608-884 | On a path without dots the rmdir after mkdir succeeds and restores bitmap and namespace. |
| Undo.WritesUndone | homework.c:1094-1115 | Writing an empty file on any path and truncating it restores the bitmap byte for byte, leaves the file empty and changes no other path. |
| Undo.WriteTruncateUndone | homework.c:1073-1268 | On a path without dots the truncate after successful writes of an empty file succeeds and does so. |
| Viewing.ReadShows | homework.c:1127-1171 | A read on any path returns exactly contents[off..min(off + len, size)] of the file that translate leads to, and EISDIR for a directory. |
| Viewing.ReadBytes | homework.c:1127-1171 | The number of bytes a read returns, and each of them, from the file at the path. |
| Viewing.ReadCodes | homework.c:1127-1139 | On every path, a read succeeds if and only if a file is found, gives -21 if and only if a directory is, and else the code of the first name that is not found. |
| Viewing.ChunkedRead | homework.c:1140-1170 | Reading on in chunks of any sizes gives what one read of their sum gives. |
| Viewing.WholeFile | homework.c:1140-1170 | Chunks that cover the file give the whole file. |
| Viewing.ReadBack | homework.c:1127-1270 | After a write that succeeds, a read of the same path at the same offset returns the data written, and a read beside it what it returned before. |
| Viewing.GetattrShows | homework.c:313-351 | getattr on any path shows the attributes of the object that translate leads to; for a file the number of its bytes and the least number of blocks that holds them; for a directory the number of blocks it has as data, and 4096 times that as size. |
| Viewing.GetattrCodes | homework.c:338-351 | On every path, getattr succeeds if and only if each name is found, so always on the root, and fails with a code if and only if the path stops with it. |
| Viewing.GetattrPlain | homework.c:338-351 | On a path without dots, getattr succeeds if and only if the object exists, gives -20 if and only if a file is in the way, and -2 if and only if a directory on the way lacks the next name. |
| Viewing.CreateStat | homework.c:447-547 | After a create that succeeds, getattr shows an empty file of no blocks, of the caller and the time of the call. |
| Viewing.MkdirStat | homework.c:580-691 | After a mkdir that succeeds, it shows a directory of 4096 bytes and one block. |
| Viewing.ListingIs | homework.c:381-408 | readdir calls the filler for exactly the valid slots. |
| Viewing.ListingInOrder | homework.c:381-408 | The calls are made in the order of the slots, one for each valid slot, with its name and inode. |
| Viewing.ListingShows | homework.c:381-408 | Every stat passed to the filler shows the object of its name below the path, directories with their blocks and size. |
| Viewing.ReaddirCodes | homework.c:365-379 | On every path, readdir succeeds if and only if a directory is found, gives -20 for a file, and else the code of the first name that is not found. |
| Viewing.ListingAgrees | homework.c:381-408 | A name is listed with a stat if and only if getattr of the name below the same path returns that stat; no name is listed twice. |
| Parsing.PathParse | homework.c:140-159 | The strtok loop yields the first ten tokens. |
| Parsing.ResolvePath | homework.c:256-293 | The loop over the components yields the resolved path. |
| Parsing.ParentPath | homework.c:436-443 | The strcat loop yields the parent string, which fits its buffer. |
| Parsing.ParentParses | homework.c:436-447 | What create and the others then translate is the resolved path without its last name. |
| Parsing.DeepPaths | homework.c:165-230 | Of the paths pathparse hands out exactly those overrun the array of ten parents that are ten plain names, all found. |
| Mounted.FileSystem.FsInit | homework.c:73-102 | On any image that is a safe tree if its magic number is right, fs_init ends without a mounted file system if and only if the first four bytes are not 35 36 30 30, and else in the state that Init says. |
| Mounted.FileSystem.Mount | homework.c:88-102 | On an image whose superblock is in order and which is a safe tree, the bitmap is block 1 and the invariant holds. |
| Mounted.FileSystem.BlockRead | misc.c:31-40 | A read asks for a block of the image; every read of every method does. |
| Mounted.FileSystem.BlockWrite | misc.c:44-56 | A write asks for a block of the image other than block 0; every write of every method does. |
| Mounted.FileSystem.ReadInode | homework.c:126-135 | The inode that is read has its fields from the bytes of its block where the format puts them. |
| Mounted.FileSystem.FindFree | homework.c:477-485 | The scan loop finds the first free block. |
| Mounted.FileSystem.ScanName | homework.c:212-236 | The nested loops find the first valid slot with the name, never reading past the pointers or the entries. |
| Mounted.FileSystem.ScanFree | homework.c:522-533 | The nested loops find the first free slot. |
| Mounted.FileSystem.TranslatePath | homework.c:165-250 | The loop with its array of ten parents computes the walk, and never indexes past the array when the walk gets no deeper than nine. |
| Mounted.FileSystem.CreateFile | homework.c:426-548 | On every state with the invariant the method does what Create says: same code, same writes in the same order, same disk and bitmap; the invariant holds afterwards if the call kept to what it needs or changed nothing. |
| Mounted.FileSystem.CreateDir | homework.c:559-692 | The method does what Mkdir says, likewise, finding both blocks in one pass. |
| Mounted.FileSystem.UnlinkFile | homework.c:698-788 | The method does what Unlink says, likewise, on any path, the root included. |
| Mounted.FileSystem.RemoveDir | homework.c:794-889 | The method does what Rmdir says, likewise, on any path, the root included as long as its first block is not empty. |
| Mounted.FileSystem.RenamePath | homework.c:904-1012 | The method, scanning block by block with two cursors, does what Rename says, for any names. |
| Mounted.FileSystem.TruncateFile | homework.c:1073-1118 | The method does what Truncate says. |
| Mounted.FileSystem.ChangeMode | homework.c:1021-1043 | The method does what Chmod says. |
| Mounted.FileSystem.ChangeTime | homework.c:1045-1066 | The method does what Utime says. |
| Mounted.FileSystem.ReadData | homework.c:1127-1171 | The method does what ReadFile says; its loop ends and stays inside the pointers. |
| Mounted.FileSystem.WriteData | homework.c:1181-1270 | The method, allocation loop and data loop, does what WriteFile says; no pointer past 1018 is assigned or used. |
| Mounted.FileSystem.ListDir | homework.c:365-410 | The nested loops make the filler calls of Readdir, in order. |
| Mounted.FileSystem.GetAttr | homework.c:338-351 | The method does what Getattr says. |
| Mounted.FileSystem.FreeSpace | homework.c:1276-1306 | The counting loop yields what Statfs says. |
| Checking.Walker.Iter | read-img.py:39-86 | On a tree the recursion ends, visits what lies at and below the inode, each inode once, and reports exactly the unmarked blocks among theirs. |
| Checking.Walker.Check | read-img.py:39-88 | On a tree the walk from inode 2 finds exactly the live inodes, each once, and reports exactly the blocks in use that the bitmap does not mark; with the bitmap of block 1, a superblock, and blocks 0 and 1 marked, it reports nothing if and only if the image is safe to mount. |
| Checking.NothingMissing | read-img.py:44-66 | On a tree with a superblock and blocks 0 and 1 marked, no block in use is unmarked if and only if the image is safe to mount. |
| Checking.UnderKid | read-img.py:85-86 | Everything below an inode lies below one of its entries, which is why the recursion misses nothing. |
| Generating.BuildMap | gen-disk.py:113-128 | The bitmap marks exactly blocks 0, 1 and the claimed blocks; the double counts reported are, in order, the data blocks that had been claimed before, none if and only if every one was free; the table says for each block what its last claim was, and nothing for an unclaimed one. |
| Generating.BuildInode | gen-disk.py:64-70 | The bytes of the inode hold each field of the item where the format puts it, its blocks as first pointers and 0 behind. |
| Generating.DirBlock | gen-disk.py:73-82 | Byte by byte: each entry has the flag and the inode number of its line, its name from byte 4 on, a NUL, and behind that what the entry before has there, since one structure is reused; without a line it is zero. Read back, each entry shows its line. |
| Generating.ScanYieldsLines | gen-disk.py:73-82 | Scanning the generated blocks slot by slot, across boundaries of 128, yields the valid lines in order. |
| Generating.WriteImage | gen-disk.py:134-148 | The image is the superblock, the bitmap, and for every further block what its cell stands for: zero bytes if it has none. |
| Generating.DirectoryLies | gen-disk.py:119-148 | If no block is claimed twice, the pointers of a directory in the image lead to its generated blocks in order, so that scanning the image yields its lines. |
| Imaging.ImageIsSafe | gen-disk.py:113-148 | The image of an input whose items form a tree and claim no block twice is a tree with exactly the roles the items give, every block of it marked: it is safe to mount. |
| Imaging.ImageNamespace | gen-disk.py:29-148 | The namespace of that image is that of the input: every item is found at the path of the lines that lead to it, with its attributes and, for a file, its bytes; and nothing else is found. |
| Imaging.Generate | gen-disk.py:113-148 | The whole program: block 0 is 35 36 30 30, the size and zeros, block 1 marks exactly what is claimed, a further block holds what its last claim says and is all zero if there is none, and the double counts are reported in order. If no block is claimed twice, every item is in the image as the input says, and if the items form a tree the image can be mounted. |
| Imaging.CellsAre | gen-disk.py:119-128 | If no block is claimed twice, the table of the claim loop has an entry for exactly the inodes and blocks of the items, each its own. |
| Imaging.BareForms | gen-disk.py:113-148 | An input of one empty root directory is such an input. |
| Literal.TinySafe | homework.c:73-102 | An image of seven blocks, given byte by byte, is safe, is mounted, and has one free block. |
| Literal.TinyShows | homework.c:165-410 | On it getattr shows the file a with every field of its inode, readdir lists it, read returns its bytes, and names that are not there get -2 and -20. |
| Literal.Refused | homework.c:80-87 | With block 0 zeroed it is not mounted, nor, in the model, with another size in block 0. |

## Left out

- Disk errors: a read or write of a block of the image succeeds, so no -EIO branch is modelled, and nothing is claimed
  about the invariant under injected errors (truncate, for one, clears bits before it writes the inode). That no
  operation asks for a block outside the image is proved.
- Crashes.InitReads: an image whose superblock gives another size than it has is refused here; fs_init does not compare
  the two.
- FUSE registration, `main`, argument parsing, `block_init`, stderr output, malloc failure, strdup and free: no property of
  the file system lives there. Strings are sequences.
- Clock and caller: the time, uid and gid are parameters.
- Calls that get to `resolved_components[-1]`: create and mkdir of a path that resolves to the root, rmdir of it when its
  first block is empty, rename when the source is found and either path resolves to the root. unlink never gets there
  (`Removing.UnlinkIsDefined`).
- mode arguments are taken as FUSE promises them: a regular file's for create, permission bits only for mkdir.
- Walks that get more than nine levels deep, which `Parsing.DeepPaths` characterises, and parent strings of 256 bytes or
  more: the code overruns `parent_stack` or `parent_path`; the methods of `Mounted.FileSystem` require that they do not
  where they get that far, the functions of `Ops` and the theorems about runs hold without it.
- Writes of 16 terabytes and more, whose block count does not fit 32 bits.
- `size_t`, `off_t` and `int` positions inside a call are unbounded integers; the 32-bit fields of the format, the 32-bit
  block counts of fs_write and the 64-bit free count of statfs are modelled with their widths.
- Runs.RunKeeps, and with it the other theorems about runs and crashes: a call that succeeds must meet the condition that
  `Limits.AsksExactly` shows to be exact; a run that breaks it goes on from a disk that cannot be mounted.
- Writing.WriteKeeps: requires that a write which gets to the allocation loop stays inside the pointer table, which
  `Writing.BoundedOnSmallDisks` proves for disks of at most 1024 blocks; past it the code writes behind the inode
  (`Edges.PastTheTable`).
- Imaging.Generate: inputs with a claim outside the image, a pointer past 1018 or a line that no entry can hold; the
  program stops with an error or cuts the image there.
- gen-disk.py: reading the input file and random file contents, which are parameters; read-img.py: printing.
