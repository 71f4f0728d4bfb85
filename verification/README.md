# CLeonOS, verified core

A Dafny model of the parts of the CLeonOS kernel and of its user programs that carry state and
arithmetic, with proofs. `dafny verify dfyconfig.toml` checks all of it.

What the C code changes in place is a class here, with the same fields: the arena with its linked
headers (`Heap.Arena`), the node table (`Fs.FileSystem`), a descriptor table
(`Descriptors.Process`), the process table with its stacks (`Exec.Kernel`), a terminal with its
cells, ring and parameter buffer (`Tty.Terminal`), the task table (`Scheduler.Scheduler`), the
statistics (`Stats.Recorder`) and an output buffer (`Stdio.Sink`). Each method is proved against a
specification on values, and the properties are proved about that specification for every input
and every run.

| files | what they model | central results |
|---|---|---|
| `heap` | first-fit allocator over one arena | every run keeps the arena tiled and coalesced; the heap is determined by its live payloads, so frees commute and undo allocations |
| `paths`, `fs_table`, `fs_room`, `fs_install`, `fs`, `fs_names`, `fs_success`, `fs_runs` | RAM-disk file system, its files owned on that heap | the slot-reusing table is a map from paths to directories or bytes in every run; each change is done exactly when names, table and heap allow it; sources may be the very payload that is replaced; no block leaks on any path |
| `ramdisk`, `ramdisk_write` | ustar reader | an archive writer that it inverts; an archive is mounted exactly when its entries fit together, and the tree is the archive |
| `syscall_fs`, `procfs` | chunked writes, names and text of process files | a call is all or a chunk-boundary prefix; names and numbers read back |
| `splice`, `descriptors`, `copy` | descriptors and cp | positioned writes replace their range; opens, reads and writes succeed under exact conditions; cp copies every source until it is used up or the heap is |
| `exec_state`, `exec_safety`, `exec_libs`, `exec_inside`, `exec_counts`, `exec_yield`, `exec_runtime`, `exec_signals`, `exec` | nested execution, signals, libraries | RUNNING is the same as stacked, at every point of every run; statuses stay; runtimes count exactly the time running; yields run what is pending; every library image is freed exactly once, when closes have caught up with opens or its owner leaves |
| `elf_image`, `elf_load`, `elf_write`, `elf_whole`, `kelf` | two ELF64 loaders over that heap | both produce the image that the file defines, and agree |
| `tty_state`, `tty_facts`, `tty_motion`, `tty_codes`, `tty` | escape sequences, cells, scrollback | any cut of a stream gives the same state; scrollback and screen are one document; which numbers cursor motions are right for |
| `scheduler`, `stats` | round robin, sliding window | a round gives every task its slice, however ticks and dispatches are nested; the window counts are exact |
| `numbers`, `stdlib`, `c11`, `stdio`, `stdio_facts`, `resolve`, `machine` | C library numbers, path resolution, words | print and parse are inverse; strtol and strtoul against the C standard, with every exception; resolution is idempotent |

## How programs, time and memory are represented

- User code is an arbitrary finite list of system calls, nested to any depth (`ExecState.Calls`);
  the image that a call starts is part of the list. The clock advances by any amount between calls
  and never goes back.
- A pointer is an offset into the arena, or stands for memory outside of it by the bytes found
  there (`FsTable.Ptr`). Only memory on the arena is shared, and writes to it are tracked byte by
  byte.
- What the keyboard queue and the random generator have at each read is an input of the read.
- A terminated C string is its characters. 64-bit and 32-bit arithmetic is written out where it
  can wrap and the result matters.
- Sizes of objects are at most 2^47 bytes where two of them are added, the size of the address
  space.

## Where the code does not do what its interface suggests

Each of these is proved at an input, with the exact condition for all inputs; for yields it is a
condition on the programs that suffices. The model follows the code.

- An allocation of more than 2^64 - 16 bytes wraps to a block of none
  (`Heap.MallocHoldsRequest`, `Heap.MallocWraps`); both loaders then write behind it
  (`ElfLoad.Load` and `Kelf.LoadRuntime` say exactly when, `Kelf.HugeOverruns` gives a file).
- Numbers in cursor motions are read modulo 2^32, and motion down or right adds in 32 bits, so that
  a very large step can go back (`TtyMotion.DownGoesUp`) or go by one (`TtyMotion.DownByOne`).
  `TtyMotion.MotionExact` and `TtyMotion.PositionExact` say for which numbers each motion is right.
- `strtoul` clamps before it negates, so that a minus sign and a number that is too large give 1
  (`C11.NegativeOverflow`), and with base 16 both functions take a bare `0x` for a prefix without
  digits (`C11.BareZero`); C11, section 7.22.1.4, wants otherwise. `C11.StrtolExact` and
  `C11.StrtoulExact` say that these are all the texts for which they differ from the standard.
- A process that asks to be stopped and then to be killed is only stopped, and can be continued
  (`ExecSignals.StopBeatsKill`); it ends exactly when no stop was asked for
  (`ExecSignals.SelfSignal`, `ExecSignals.ExitStatus`).
- A stopped process that is continued starts again from its first call, always
  (`ExecSignals.ContinueStartsOver`).
- A process whose run begins while the clock stands at 0 is reported to have taken no time in it
  (`ExecRuntime.LostAtZero`); the time of a run is exact if and only if that is not so, or none has
  passed (`ExecRuntime.RunExact`).
- Yields need not clear what is pending: a program can spawn or continue another one
  (`ExecYield.NeverEnough`). Without such programs enough yields do (`ExecYield.EnoughYields`).
- A duplicated descriptor always has a position of its own (`Descriptors.Process.Dup`).
- `cp` of a file onto itself, when it succeeds, has emptied it; otherwise the destination holds the
  bytes of the source (`Copy.CopyFile`).
- `cp` of `/dev/zero` or `/dev/random` never succeeds: it goes on until the heap has no room for two
  copies of what it has written, which stays (`Copy.DeviceCopied`, `Copy.CopyFile`).

## Model

| member | source | states |
|---|---|---|
| Heap.MallocFailsWhenNothingFits | clks/kernel/heap.c:94-126 | An allocation is refused exactly when it asks for nothing or no free block holds the rounded size, and a refusal changes nothing. |
| Heap.MallocLive | clks/kernel/heap.c:94-126 | A successful allocation hands out a payload that was not live, at least the rounded size long, and leaves every other live payload where and as long as it was. |
| Heap.MallocHoldsRequest | clks/kernel/heap.c:25-27 | The rounding wraps in 64 bits: the block handed out holds the request if and only if the request is at most 2^64 - 16 bytes. |
| Heap.MallocTakesFirst | clks/kernel/heap.c:94-126 | A request gets the lowest free block that is large enough, its payload behind the header, and the rest of the block is cut off exactly when it has room for a header and 16 bytes. |
| Heap.FitTwoMeans | clks/kernel/heap.c:94-126 | Two blocks of one size can be handed out one after the other exactly when two free blocks are large enough, or one is for both and a header. |
| Heap.MallocWraps | clks/kernel/heap.c:94-126 | On the fresh heap a request for 2^64 - 1 bytes succeeds with a block of no bytes, which is why the size bound is needed. |
| Heap.MallocKeepsOk | clks/kernel/heap.c:29-53 | Allocation, with or without a split, keeps the arena tiled without gap or overlap and never leaves two free neighbours. |
| Heap.FreeAtShape | clks/kernel/heap.c:149-163 | Releasing a block, with its merges on either side, leaves one free block in place of it and of exactly its free neighbours. |
| Heap.FreeKeepsOk | clks/kernel/heap.c:128-164 | Releasing a live block keeps the arena tiled and coalesced. |
| Heap.FreeLive | clks/kernel/heap.c:128-164 | Releasing takes exactly its argument out of the live payloads. |
| Heap.LiveDisjoint | clks/kernel/heap.c:94-164 | Any two live payloads lie inside the arena and at least a header apart. |
| Heap.MallocCounts | clks/kernel/heap.c:114-120 | An allocation raises the bytes in use by the size of the new block and the live count by one. |
| Heap.FreeCounts | clks/kernel/heap.c:149-157 | A release lowers the bytes in use by the size of its block, so the clamp in the source never acts. |
| Heap.ReportedFreeBytes | clks/kernel/heap.c:166-176 | The reported free bytes are the bytes of the free blocks plus one header for every block beyond the first. |
| Heap.Canonical | clks/kernel/heap.c:94-164 | Well-formed heaps with the same live payloads are the same heap: the order of calls leaves no trace. |
| Heap.ReleaseUndoesAllocate | clks/kernel/heap.c:94-164 | Releasing what was just allocated restores the block list exactly, whatever was split. |
| Heap.ReleasesCommute | clks/kernel/heap.c:128-164 | Two live blocks can be released in either order with the same result. |
| Heap.EveryRunKeepsHeap | clks/kernel/heap.c:78-176 | After every sequence of allocations and releases of live blocks the heap is tiled and coalesced, live payloads are disjoint, and the reported free bytes are what the free blocks hold. |
| Heap.EmptyHeapIsInitial | clks/kernel/heap.c:78-92 | Once every live block has been released, in any order, the heap is the single initial block. |
| Heap.SplitLinks | clks/kernel/heap.c:29-53 | The three header updates of a split leave next and previous links that agree with the new block list. |
| Heap.MergeLinks | clks/kernel/heap.c:55-76 | The header updates of a merge leave links that agree with the merged block list. |
| Heap.Arena.constructor | clks/kernel/heap.c:78-92 | The arena starts zeroed as one free block with correct links and counters. |
| Heap.Arena.SplitBlock | clks/kernel/heap.c:29-53 | In place, a split produces the two blocks and consistent links, and writes no byte outside the block and the header behind it. |
| Heap.Arena.MergeWithNext | clks/kernel/heap.c:55-76 | In place, a merge joins with a free next block only and changes no live payload. |
| Heap.Arena.Kmalloc | clks/kernel/heap.c:94-126 | The linked-header allocator does what the block-list specification says: result, counters, links, and no byte of any live payload written. |
| Heap.Arena.Coalesce | clks/kernel/heap.c:159-163 | The two merges after a release leave the specified block list and all live bytes. |
| Heap.Arena.Kfree | clks/kernel/heap.c:128-164 | Releasing null or a live payload keeps links, counters and invariants, removes exactly that payload, and writes no live byte. |
| Heap.Arena.Stats | clks/kernel/heap.c:166-176 | The statistics equal sums over the block list; allocations minus releases is the number of live blocks. |
| Paths.CompsOfJoin | clks/kernel/fs.c:34-99 | Joining components with slashes and reading the path back gives the components. |
| Paths.Parent | clks/kernel/fs.c:174-205 | The directory part is the text before the last slash, the empty text when there is none. |
| Paths.SkipSlashes | clks/kernel/fs.c:46-48 | Skipping slashes never loses a component of the rest. |
| Paths.ReadComp | clks/kernel/fs.c:50-56 | The scanner takes exactly the next component and leaves the others. |
| FsTable.ViewFind | clks/kernel/fs.c:125-139 | A path is in the tree exactly when the table search finds it, and the node found holds its entry. |
| FsTable.ViewUpdate | clks/kernel/fs.c:231-300 | Storing a node into a slot, used or reused, removes from the tree what the slot stood for and adds what it now stands for, nothing else. |
| FsTable.StoreExisting | clks/kernel/fs.c:752-766 | Giving an existing file a new payload sets exactly that file, keeps the table sound, and moves ownership so that no block leaks. |
| FsTable.StoreNew | clks/kernel/fs.c:248-300 | Adding a file in a free or new slot adds exactly that path and passes its block to the table. |
| FsTable.RemoveNode | clks/kernel/fs.c:838-888 | Dropping a node without children removes exactly its path and the block it owned. |
| FsTable.ParentOfSome | clks/kernel/fs.c:865-875 | The parent-index test for children agrees with the tree: it is met exactly when some path lies directly below. |
| FsTable.SoundIsRooted | clks/kernel/fs.c:302-376 | In a sound table every path other than the root has its parent directory in the tree. |
| FsTable.AncestorsAreDirs | clks/kernel/fs.c:310-376 | Every proper prefix of a stored path that ends at a slash is a directory. |
| FsTable.ParentIsDir | clks/kernel/fs.c:396-440 | The node found for the directory part of a path is a directory, so a file never gets a file as parent. |
| FsTable.KeptView | clks/kernel/fs.c:219-229 | As long as owned payloads keep their bytes, every file keeps its contents. |
| Fs.AddComp | clks/kernel/fs.c:70-93 | In place, one component goes behind those that are in the buffer, with a slash between, exactly when it fits. |
| Fs.NormalizeInto | clks/kernel/fs.c:34-99 | The in-place normaliser leaves the components without dots, joined by single slashes, and a terminator; it fails exactly for relative paths, dot-dot and what does not fit, and writes nothing behind the buffer. |
| Fs.SplitParentInto | clks/kernel/fs.c:174-205 | The copy loop leaves the directory part and a terminator, and fails exactly when the buffer is too short for it. |
| FsNames.DotsVanish | clks/kernel/fs.c:34-99 | One dot between slashes counts for nothing, anywhere in a path. |
| FsNames.SlashesMerge | clks/kernel/fs.c:34-99 | Nor does a second slash. |
| FsNames.DotDotRefused | clks/kernel/fs.c:34-99 | A path with two dots between slashes or at its end is refused. |
| FsNames.RelativeRefused | clks/kernel/fs.c:41-43 | So is one that does not begin with a slash. |
| FsNames.CleanIsItself | clks/kernel/fs.c:34-99 | The path of proper components is taken without its slash, exactly when that fits. |
| FsNames.TempIsTemp | clks/kernel/fs.c:101-123 | What can be changed is /temp and what is below it, by its first component, and files only below. |
| Fs.FileSystem.constructor | clks/kernel/fs.c:472-484 | The table starts with the root directory alone, on whatever heap there is. |
| Fs.FileSystem.FindNode | clks/kernel/fs.c:125-139 | The loop returns the first used node with the path, or -1. |
| Fs.FileSystem.AllocSlot | clks/kernel/fs.c:231-246 | A released slot is reused before the table grows; a full table is refused unchanged. |
| Fs.FileSystem.CreateOrUpdate | clks/kernel/fs.c:248-300 | Creates or updates exactly one node and refuses to turn a file into a directory or back. |
| Fs.FileSystem.EnsureDirs | clks/kernel/fs.c:310-376 | Adds only missing directories on the way to the path and none elsewhere; on success the path is a directory; it fails only for a full table, a file on the way or a malformed path. |
| Fs.FileSystem.BuildPayload | clks/kernel/fs.c:442-470 | A payload is a fresh copy of the source bytes, or the shared empty payload; a failure leaves the heap as it was. |
| Fs.FileSystem.ReleaseData | clks/kernel/fs.c:219-229 | An owned payload is freed and its flag cleared; a payload that is not owned stays. |
| Fs.FileSystem.WriteAll | clks/kernel/fs.c:704-767 | A write is done if and only if the path can be named, no file is on the way and no directory in its place, the missing directories and the file fit the table, and the heap holds the payload; it sets exactly that file to the source bytes as they were before the call, even when they are the payload being replaced, and adds only missing ancestors; a failed one changes no file and leaves the heap exactly as it was. |
| Fs.FileSystem.Merge | clks/kernel/fs.c:816-828 | The append buffer holds the old bytes followed by the new ones, in a block nobody else owns. |
| Fs.FileSystem.Append | clks/kernel/fs.c:769-836 | An append is done if and only if a write would be, or the file is there and the heap holds the merged bytes twice; it leaves the old bytes followed by the new ones and touches nothing else; a failed one changes no file and leaves the heap exactly as it was. |
| FsSuccess.WriteNeeds | clks/kernel/fs.c:704-767 | A write needs a place in the tree, with directories above as far as they are there and at most 512 paths, and for data a free block that holds it. |
| FsSuccess.AppendNeeds | clks/kernel/fs.c:769-836 | An append to a file needs room for all its bytes twice; where there is no file it is a write. |
| Fs.FileSystem.Remove | clks/kernel/fs.c:838-888 | Removal succeeds if and only if the path names a file or an empty directory below temp; then exactly that entry goes, and its block is freed. |
| Fs.FileSystem.ReadAll | clks/kernel/fs.c:557-583 | Reading gives the bytes of the file exactly when the path names a file. |
| Fs.FileSystem.Stat | clks/kernel/fs.c:539-555 | Status gives the kind and the true size of every entry there is. |
| Fs.FileSystem.Mkdir | clks/kernel/fs.c:671-702 | A directory is made if and only if the path is in the temp tree, no file is on the way and what is missing fits the table; only directories on the way are added, and on success the path is one. |
| Fs.FileSystem.Visit | clks/kernel/fs.c:396-440 | One archive entry adds its directory, or its file with exactly its bytes, and all missing ancestors; it is refused exactly when its path has an empty component, a file is on the way, a directory in its place, or the table has no room. |
| Fs.FileSystem.Unpack | clks/kernel/fs.c:502-505 | Unpacking succeeds exactly when the archive describes a tree, and then the table is that tree. |
| Fs.FileSystem.Mount | clks/kernel/fs.c:472-533 | The file system is ready if and only if the boot image describes a tree that has the five standard directories, and then it holds exactly that tree. |
| Fs.FileSystem.ArchiveExact | clks/kernel/fs.c:396-505 | An image describes a tree exactly when its headers are in order and its entries fit together; the paths are those that entries need, and each file has the bytes of the last entry for it. |
| FsInstall.InstallExact | clks/kernel/fs.c:396-440 | Entries can all be added if and only if no path has an empty component, none is needed both as a file and as a directory, and there are at most 512 paths with the root; their order does not matter for that. |
| FsInstall.FileInstalled | clks/kernel/fs.c:410-436 | A file entry that the table has accepted was one that can be added, and the table is the tree with it. |
| FsRoom.TreeSize | clks/kernel/fs.c:231-246 | The tree has as many paths as the table has used nodes, so counting paths tells when slots run out. |
| FsRoom.HadRoom | clks/kernel/fs.c:302-376 | A path that is in the tree had room with all that was missing on the way, and no file on the way. |
| FsRoom.HadNoRoom | clks/kernel/fs.c:231-246 | A walk that ends at a full table had too little room from the start. |
| FsRuns.EveryRun | clks/kernel/fs.c:671-888 | In every run of requests each file holds what its own history says, and nothing outside temp ever changes. |
| FsRuns.LastWriteStays | clks/kernel/fs.c:704-888 | A file that later requests do not name holds what was last written to it. |
| FsRuns.AnswerEffect | clks/kernel/fs.c:671-888 | One request, done or refused, has on every path the effect that its answer tells. |
| FsRuns.Serve | clks/kernel/fs.c:671-888 | The file system answers every request within that specification. |
| FsRuns.Play | clks/kernel/fs.c:671-888 | The stateful file system, driven by any list of requests, produces such a run and keeps all blocks of others. |
| Ramdisk.ParseOctal | clks/kernel/ramdisk.c:50-82 | The size parser accepts exactly padded octal digits that fit 64 bits and returns their value. |
| Ramdisk.BuildPath | clks/kernel/ramdisk.c:84-151 | The path of a header is prefix and name without leading and trailing slashes and dot-slash, or a failure when it does not fit. |
| Ramdisk.IsZeroBlock | clks/kernel/ramdisk.c:28-38 | A block counts as the end of the archive exactly when all its bytes are zero. |
| RamdiskWrite.SizeReadsBack | clks/kernel/ramdisk.c:50-82 | Every size up to 8^11 - 1 written as eleven octal digits is read back. |
| RamdiskWrite.OctalAccepts | clks/kernel/ramdisk.c:50-82 | Octal digits are read behind any blanks, up to the end or the next blank, whatever follows. |
| RamdiskWrite.OctalRejects | clks/kernel/ramdisk.c:50-82 | Any other character among them is refused. |
| RamdiskWrite.PathsStripped | clks/kernel/ramdisk.c:119-148 | Leading slashes and dot-slashes and trailing slashes go, and nothing else does. |
| RamdiskWrite.EntryKinds | clks/kernel/ramdisk.c:189-206 | Type 5 is a directory, 0 or none a file, and all else is passed over. |
| RamdiskWrite.PathReadsBack | clks/kernel/ramdisk.c:84-151 | Every path that can be cut into a prefix of 155 and a name of 100 bytes is read back. |
| RamdiskWrite.ArchiveReadsBack | clks/kernel/ramdisk.c:153-221 | The reader finds exactly the entries of any archive that was written, with their kinds, paths, long ones included, and bytes, and stops at its end. |
| SyscallFs.PutChunk | clks/kernel/syscall.c:1556-1571 | One chunk, also from a payload that the file system owns, is written or appended through a heap copy that is always given back; it succeeds if and only if the heap has room for the copy and then the file system for the write, and a failure leaves the heap as it was. |
| SyscallFs.WriteCommon | clks/kernel/syscall.c:1523-1581 | A successful call leaves the data, behind the old bytes in append mode, whatever the chunk size; a failed one leaves that result cut at a chunk boundary, with no room for the next chunk. A call of at most one chunk succeeds exactly when there is room for it. |
| SyscallFs.ProgressStep | clks/kernel/syscall.c:1548-1578 | A chunk put behind the first bytes of a call gives the longer prefix of its result. |
| SyscallFs.SameNeeds | clks/kernel/syscall.c:1548-1578 | Directories that a failed try has made do not change what the chunk needs. |
| FsSuccess.ChunkNeeds | clks/kernel/syscall.c:1548-1578 | A chunk needs a place for the file and room for its bytes twice. |
| Procfs.ParseDec | clks/kernel/syscall.c:307-334 | The parser accepts exactly the digit texts whose value fits 64 bits; the division test finds every overflow. |
| Procfs.ParsePid | clks/kernel/syscall.c:336-377 | A path names a process exactly when it is /proc/ and at most 31 digits of a positive 64-bit number; the tests for self and list exclude nothing else. |
| Procfs.PidExact | clks/kernel/syscall.c:336-377 | A path names a process exactly when it is /proc/ and 1 to 31 digits of a number from 1 to 2^64 - 1. |
| Procfs.PidReadsBack | clks/kernel/syscall.c:336-377 | The name made of any pid leads back to that pid. |
| Procfs.AppendChar | clks/kernel/syscall.c:399-412 | The buffer keeps the longest prefix of the whole text that leaves room for a terminator, and nothing behind that is written. |
| Procfs.AppendDec | clks/kernel/syscall.c:429-448 | What is appended is the decimal form of the number without leading zeros. |
| Procfs.AppendHex | clks/kernel/syscall.c:450-462 | What is appended is 0X and the sixteen hexadecimal digits of the number. |
| Procfs.HexReadsBack | clks/kernel/syscall.c:450-462 | A number printed that way is read back by the C library. |
| Procfs.RenderSnapshot | clks/kernel/syscall.c:927-990 | The file of a process is the longest prefix of its thirteen lines that fits, terminated; the rest of the buffer stays. |
| Procfs.SnapshotLines | clks/kernel/syscall.c:927-990 | Read line by line, that text names each of the thirteen values in order. |
| Splice.WriteAt | clks/kernel/exec.c:976-1049 | A write at an offset replaces just its range, keeps the rest and fills a gap with zeros. |
| Splice.PatchesAreWriteAt | clks/kernel/exec.c:1023-1035 | Clearing a buffer, copying the old file and then the new bytes amounts to that write. |
| Splice.WriteAtTwice | clks/kernel/exec.c:976-1049 | Two writes one behind the other are one write of both. |
| Splice.ReadBack | clks/kernel/exec.c:946-1049 | The range reads back as written, and everything before and behind it is unchanged. |
| Descriptors.WriteInto | clks/kernel/exec.c:976-1049 | A positioned write is done if and only if the path can be named and the heap holds the result twice; it sets the file to exactly that result or leaves every file's bytes as they were, and gives its buffer back. |
| Descriptors.Process.constructor | clks/kernel/exec.c:834-861 | A new process has the terminal as its three standard descriptors and no other. |
| Descriptors.Process.FindFree | clks/kernel/exec.c:918-932 | The lowest free descriptor is found if there is one. |
| Descriptors.Process.Open | clks/kernel/exec.c:1606-1705 | An open succeeds if and only if path and flags are in order, a descriptor is free and the path is a device, a file (that can be named, if it is to be truncated) or one that may be made and fits; it gives that descriptor, positioned at the end in append mode, and creates or truncates only as the flags say; a failure leaves the descriptor table as it was. |
| FsSuccess.OpenNeeds | clks/kernel/exec.c:1606-1705 | An open needs a file that is there, with a name if it is emptied, or the flags to make one and a place for it. |
| Descriptors.Process.Read | clks/kernel/exec.c:1707-1774 | A read succeeds if and only if the descriptor can be read and, for a file, the file is there; it gives the bytes at the position up to the end, zeros, nothing, or what the keyboard or random generator has, and moves this descriptor only, by as much as was read. |
| Descriptors.Process.Write | clks/kernel/exec.c:1776-1814 | A write succeeds if and only if the descriptor can be written and, for a file, name, table and heap allow it; it is a positioned write, or an append, of the whole buffer, and moves this descriptor only; a failure leaves the heap as it was. |
| Descriptors.Process.Close | clks/kernel/exec.c:1816-1832 | Closing succeeds exactly for an open descriptor and clears it alone. |
| Descriptors.Process.Dup | clks/kernel/exec.c:1834-1857 | The copy has the position by value, so the two descriptors move apart; it fails exactly when the descriptor is not open or none is free. |
| Descriptors.Devices | clks/kernel/exec.c:802-824 | There are five device files. |
| Descriptors.ZeroDevice | clks/kernel/exec.c:1707-1774 | /dev/zero gives zeros and has a position. |
| Descriptors.NullDevice | clks/kernel/exec.c:1707-1774 | /dev/null gives nothing. |
| Descriptors.TerminalDevice | clks/kernel/exec.c:1707-1774 | /dev/tty gives what the keyboard has, as much as is asked for. |
| Descriptors.RandomDevice | clks/kernel/exec.c:1707-1774 | /dev/random and /dev/urandom give what the generator has. |
| Descriptors.FileGives | clks/kernel/exec.c:946-974 | A file gives its bytes from the position on, as far as they go, and the position moves by as many. |
| Copy.CopyFile | cleonos/c/apps/cp_main.c:2-57 | cp gets to copying if and only if the source is there, two descriptors are free and the destination can be opened; then the destination holds what was read so far, and it succeeds when a read delivers nothing and fails only when the heap cannot hold the next piece twice. So a file is copied in full, unless it is its own destination and then empty; zeros and random numbers always end in failure; the descriptor table is in any case as before. |
| FsSuccess.CopyNeeds | cleonos/c/apps/cp_main.c:2-24 | cp begins exactly when its source is there as a file, two descriptors are free, and the destination has a name and a place in the temp tree. |
| Copy.Transfer | cleonos/c/apps/cp_main.c:25-52 | The copy loop ends for every source, the endless ones included, with the destination holding what was read. |
| Copy.Round | cleonos/c/apps/cp_main.c:25-52 | One round moves the next piece of the source; the loop ends exactly when a read delivers nothing or there is no room for what it delivered. |
| Copy.WriteOut | cleonos/c/apps/cp_main.c:39-51 | The inner loop puts all the bytes of one read behind those already copied, or none of them when there is no room. |
| Copy.CopiedOn | cleonos/c/apps/cp_main.c:39-51 | A positioned write at the end of the copied bytes appends to them. |
| Copy.FileCopied | cleonos/c/apps/cp_main.c:25-57 | When a read of a file delivers nothing, all of it has been copied and it is still there, unless it is its own destination. |
| Copy.FileAllRead | cleonos/c/apps/cp_main.c:25-37 | Reads of 4096 bytes deliver a whole file exactly when the next one delivers nothing. |
| Copy.DeviceCopied | cleonos/c/apps/cp_main.c:25-57 | Copying of zeros or random numbers never succeeds, and the null device leaves an empty file. |
| ExecState.AllocSlot | clks/kernel/exec.c:739-755 | A slot is given away only when it is unused or its process has exited; it fails only when there is none. |
| ExecState.FindPid | clks/kernel/exec.c:727-737 | The first record in use with the pid, or none. |
| ExecState.RunSlot | clks/kernel/exec.c:1208-1389 | Whatever the program calls, also nested, a run returns with stack depth, running depth, dispatch flag and every lower frame's exit and stop requests as they were. |
| ExecState.DoCalls | clks/kernel/exec.c:1163-1206 | Any list of system calls changes at most the requests of the process that makes them, and leaves everything below it on the stack alone. |
| ExecSafety.RunSlotOk | clks/kernel/exec.c:1208-1389 | A run, with everything nested in it, keeps the invariant of table, stack and clock, and ends with the record exited or stopped. |
| ExecSafety.DoCallsOk | clks/kernel/exec.c:1163-1206 | So does every list of system calls. |
| ExecSafety.EveryRunOk | clks/kernel/exec.c:1208-2495 | From start-up every run keeps the invariant, moves processes only along the allowed transitions, and unwinds to an empty stack. |
| ExecInside.RunningIffStacked | clks/kernel/exec.c:1208-1389 | At every point between operations of every run from start-up, at any depth of nesting, a process is RUNNING exactly when its pid is on the stack; stacked pids are distinct and at most 16; the record of the current process exists and is RUNNING. |
| ExecInside.InsideOk | clks/kernel/exec.c:1163-1602 | Every state that a run passes through, inside any nested program, keeps both invariants, and the processes that were stacked stay at the bottom of its stack. |
| ExecInside.PhasesAreLegal | clks/kernel/exec.c:1104-1138 | At every such point a process is in the phase that its last move led to, all moves ever made are allowed ones, and pids are distinct. |
| ExecInside.LowerFramesStay | clks/kernel/exec.c:1391-1602 | While a process is served, at any depth, every process below keeps its slot, pid and RUNNING phase, and its exit and stop requests unless it is the innermost of them. |
| ExecInside.RecordsGoOn | clks/kernel/exec.c:1554-1592 | From any point of a run on, an exited record stays as it is until its slot is reused, and reported runtimes grow within the time since the first start. |
| ExecInside.ImagesOnceFreed | clks/kernel/exec.c:441-453 | At every such point each library image ever loaded is either open or freed, and freed at most once. |
| ExecInside.EndIsInside | clks/kernel/exec.c:1163-1206 | The state that a run ends in is one of those. |
| ExecSafety.BelowStays | clks/kernel/exec.c:1391-1592 | Over a whole nested run every process below keeps its slot, its pid and its RUNNING state. |
| ExecSafety.StackedSlotsStay | clks/kernel/exec.c:739-755 | The slot of a stacked process is never reclaimed, so a search for its pid keeps finding it. |
| ExecSafety.TopRunning | clks/kernel/exec.c:2012-2031 | The record of the innermost process is found and is RUNNING. |
| ExecSafety.WaitStable | clks/kernel/exec.c:1554-1592 | The status that a wait has reported is reported by every later wait, whatever ran in between, until the slot goes to another process. |
| ExecSafety.ReportedRuntime | clks/kernel/exec.c:2103-2117 | Under a clock that does not go back, the reported runtime of a process never decreases and never exceeds the time since its first start, across any stops and restarts. |
| ExecSafety.SignalStatusParts | clks/kernel/exec.c:722-725 | Signal, fault vector and error code can be read back from the status of a process that was killed. |
| ExecSafety.KillOk | clks/kernel/exec.c:2218-2297 | Signals keep the invariant and move processes only along the allowed transitions. |
| ExecSafety.LogGrows | clks/kernel/exec.c:1104-1138 | The history of phases stays consistent with every single move. |
| ExecSignals.StopThenContinue | clks/kernel/exec.c:2218-2297 | Stopping a pending process and continuing it leaves it pending as it was. |
| ExecSignals.KillIsReported | clks/kernel/exec.c:2218-2297 | A process that is not running and is killed has exited, and the next wait reports the signal. |
| ExecSignals.OnlyTheCurrentIsSignalled | clks/kernel/exec.c:2277-2283 | A running process that is not the innermost one is refused any signal but continue, and only the signal number is noted. |
| ExecSignals.SelfSignal | clks/kernel/exec.c:2218-2297 | A signal that a process sends to itself is in its status when it leaves; it is stopped if the signal is stop or a stop was asked for before, and has exited otherwise. |
| ExecSignals.ExitStatus | clks/kernel/exec.c:1594-1604 | The last exit request decides the status, whatever the program returns afterwards; the process has exited unless it was asked to stop. |
| ExecSignals.StopBeatsKill | clks/kernel/exec.c:2218-2297 | A process that asks to be stopped and then killed ends stopped, with the status of the kill, and a continue makes it pending again. |
| ExecSignals.WaitRuns | clks/kernel/exec.c:1554-1592 | Waiting for a pending process runs its whole program, whatever calls it makes; the wait reports what it returns or was last asked to leave with, and nothing if it stops. |
| ExecSignals.SpawnThenWait | clks/kernel/exec.c:1509-1592 | So does waiting for a process that was just spawned, for every program. |
| ExecSignals.ContinueStartsOver | clks/kernel/exec.c:2252-2261 | A stopped process that is continued and waited for runs its whole program again from the first call. |
| ExecSignals.FaultAsks | clks/kernel/exec.c:2401-2460 | A fault of a user program asks it to leave with a status that names the signal of its vector, the vector and the error code, and changes nothing else but the noted signal. |
| ExecSignals.FaultElsewhere | clks/kernel/exec.c:2401-2460 | A fault of anything else changes nothing. |
| ExecSignals.UserPrograms | clks/kernel/exec.c:274-292 | User programs are those under /shell/ and .elf files that are not under /system/ or /driver/. |
| ExecSignals.KillNumbers | clks/kernel/exec.c:2241-2242 | Signal 0 stands for 15, and of other numbers the low eight bits count. |
| ExecSignals.KillAnswers | clks/kernel/exec.c:2218-2247 | A signal for nobody fails, and one for a process that has exited does nothing. |
| ExecSignals.WaitAnswers | clks/kernel/exec.c:1554-1592 | A wait answers failure, 0 or 1 with the status, by the phase of the process, and changes nothing unless it runs it. |
| ExecSignals.SpawnRecord | clks/kernel/exec.c:1051-1096 | A new process has a fresh pid, its parent's pid, no time and the status of failure. |
| ExecSignals.UnusedFirst | clks/kernel/exec.c:739-755 | The first unused slot is given away, or else the first one whose process has exited. |
| ExecSignals.LeavingRecord | clks/kernel/exec.c:1319-1363 | The record of a process that leaves keeps its identity and signal and has status, phase and exit tick as it was asked. |
| ExecSignals.RunAnswers | clks/kernel/exec.c:1412-1469 | A program that is run at once answers with the status that it leaves with. |
| ExecSignals.RunFails | clks/kernel/exec.c:1412-1469 | It answers nothing when it cannot be run. |
| ExecLibs.DoCallsLibs | clks/kernel/exec.c:365-453 | Every list of system calls keeps: an open library belongs to a process on the stack, at most one slot per owner and path, every image either open or freed, once. |
| ExecLibs.EveryImageFreedOnce | clks/kernel/exec.c:441-453 | After every run from start-up no library slot is in use, and each image ever loaded has been freed exactly once, by close or by process end. |
| ExecInside.OwnersAreRunning | clks/kernel/exec.c:1859-1915 | At every point of every run, the owner of an open library is a RUNNING process on the stack, and no two slots are for the same owner and path. |
| ExecCounts.OpensNeedCloses | clks/kernel/exec.c:1859-1943 | For an open library and any calls of its owner, with any programs run in between: the image is freed if and only if at some point the owner has closed its handle as often as it had opened the path; until then the library is in its slot with the difference as its count. |
| ExecCounts.OpenUntilCounted | clks/kernel/exec.c:1859-1943 | The slot of an open library follows the count of opens and closes, call by call, and the image is freed exactly when the count ends. |
| ExecCounts.CountIsDifference | clks/kernel/exec.c:1859-1943 | That count ends exactly when closes have caught up with opens, and is their difference otherwise. |
| ExecCounts.FirstOpenToLastClose | clks/kernel/exec.c:1859-1943 | The same from the first open of a library on, for the handle that it gives. |
| ExecCounts.CallCounts | clks/kernel/exec.c:1859-1943 | One call, of whatever kind, counts an open library of the caller up, down or not at all, and at nothing frees its image. |
| ExecCounts.RunSlotKeeps | clks/kernel/exec.c:1208-1389 | A nested run, whatever it opens, closes and runs itself, leaves the whole library table as it was and takes back no release. |
| ExecCounts.DoCallsKeep | clks/kernel/exec.c:1163-1206 | Any calls of a process change only its own slots. |
| ExecCounts.LowerLibsStay | clks/kernel/exec.c:1163-1602 | At every point in between, at any depth, the open libraries of all processes below are in their slots as they were. |
| ExecYield.YieldRuns | clks/kernel/exec.c:1391-1410 | A yield, a sleep or a tick runs the first pending process, whatever calls it makes: afterwards it is stopped if it was asked to stop and else exited, with the status that it was last asked to leave with or that it returned. |
| ExecYield.YieldFails | clks/kernel/exec.c:1208-1389 | Without a program that can be run or without room on the stack it has exited with 2^64 - 1. |
| ExecYield.YieldIdle | clks/kernel/exec.c:1391-1410 | Nothing happens while a dispatch is under way or when nothing is pending. |
| ExecYield.EnoughYields | clks/kernel/exec.c:1391-1410 | As many yields as there are pending processes leave none pending, for all programs that, with all they start, spawn and continue nothing, whatever else they do. |
| ExecYield.NeverEnough | clks/kernel/exec.c:1391-1410 | With programs that spawn themselves again no number of yields is enough, which is why the programs matter. |
| ExecYield.CallsFewer | clks/kernel/exec.c:1391-1602 | Calls of such programs make nothing pending that was not. |
| ExecRuntime.RuntimeCountsRunning | clks/kernel/exec.c:2103-2117 | Over any calls the reported runtime of a process grows by exactly the ticks during which it was running, in runs that began after tick 0, and by none while it was pending, stopped or exited. |
| ExecRuntime.RuntimeFromStart | clks/kernel/exec.c:2103-2117 | From start-up on, it is those ticks. |
| ExecRuntime.AllTheTime | clks/kernel/exec.c:1104-1128 | While it is on the stack a process is charged for all the time that passes, also in programs that it has started. |
| ExecRuntime.RunIsCounted | clks/kernel/exec.c:1104-1138 | A whole run adds the time that it has taken, and nothing if the clock stood at 0 when it began. |
| ExecRuntime.RunExact | clks/kernel/exec.c:2103-2117 | So the runtime of a run is exact if and only if the clock did not stand at 0 when it began, or no time has passed. |
| ExecRuntime.NoneLost | clks/kernel/exec.c:1104-1128 | Once the clock has started, no run is left out of the count. |
| ExecRuntime.LostAtZero | clks/kernel/exec.c:1104-1128 | A program that is run at tick 0 and takes five ticks is reported to have taken none. |
| ExecRuntime.AdvanceGrows | clks/kernel/exec.c:2103-2117 | When the clock advances, exactly the processes on the stack are charged. |
| ExecLibs.ReleaseOk | clks/kernel/exec.c:441-453 | When a process leaves, all its libraries go, each image freed now and only now. |
| ExecLibs.OpenOk | clks/kernel/exec.c:1859-1915 | Opening keeps one slot per owner and path. |
| ExecLibs.CloseOk | clks/kernel/exec.c:1917-1943 | Closing frees an image only with its last reference. |
| Exec.Kernel.constructor | clks/kernel/exec.c:1471-1491 | Start-up gives an empty process table, stack and library table, and pid 1 next. |
| Exec.Kernel.FindSlotByPid | clks/kernel/exec.c:727-737 | The loop finds the slot that the specification names. |
| Exec.Kernel.AllocProcSlot | clks/kernel/exec.c:739-755 | Two passes: an unused slot first, then the first one whose process has exited. |
| Exec.Kernel.SpawnPath | clks/kernel/exec.c:1509-1548 | In place, a new pending record with a fresh pid takes the slot, or nothing changes. |
| Exec.Kernel.RequestExit | clks/kernel/exec.c:1594-1604 | In place, exactly the innermost frame's exit request and status are set. |
| Exec.Kernel.ProcKill | clks/kernel/exec.c:2218-2297 | In place, table and innermost frame become what the signal specification says, with its return code. |
| Exec.Kernel.HandleException | clks/kernel/exec.c:2401-2460 | A fault of a user program asks it to leave with the encoded status; any other is not captured and changes nothing. |
| Exec.Kernel.OpenLib | clks/kernel/exec.c:1859-1915 | The handle returned is the one under which this process finds the library; without one nothing has changed. |
| Exec.Kernel.CloseLib | clks/kernel/exec.c:1917-1943 | Closing succeeds exactly for a handle of the current process, in the specified way. |
| Exec.Kernel.ReleaseOwner | clks/kernel/exec.c:441-453 | The loop clears exactly the slots of the owner and frees their images in table order. |
| Exec.Kernel.Enter | clks/kernel/exec.c:1248-1258 | The record is marked running and a clean frame for it is on top. |
| Exec.Kernel.Leave | clks/kernel/exec.c:1333-1379 | The record gets its last phase, the libraries of the process go, its frame is popped. |
| Exec.Kernel.Return | clks/kernel/exec.c:1319-1363 | The status is the requested one if an exit was asked for, else what the program returned, and a stop request stops. |
| Exec.Kernel.RunProcSlot | clks/kernel/exec.c:1208-1389 | The recursive in-place executor does what the specification says, for every program. |
| Exec.Kernel.DispatchPendingOnce | clks/kernel/exec.c:1391-1410 | The first pending process runs inside the dispatcher, which does not nest; the answer tells whether one ran. |
| Exec.Kernel.WaitPid | clks/kernel/exec.c:1554-1592 | In place, a wait runs the process if it is pending and reports the specified code and status. |
| Exec.Kernel.RunPath | clks/kernel/exec.c:1412-1469 | In place, a new process runs to its end at once. |
| Exec.Kernel.ServeAll | clks/kernel/exec.c:1163-1206 | The kernel on arrays and counters refines the specification for every program. |
| ElfImage.ByteOfLast | clks/kernel/elf64.c:244-274 | A byte of the loaded image is the file byte of the last PT_LOAD segment in table order whose file part covers its address. |
| ElfImage.ByteOfNone | clks/kernel/elf64.c:236-274 | An address that no file part covers holds zero. |
| ElfImage.FlatHoldsFile | clks/kernel/elf64.c:244-274 | A segment that no later file part overlaps is in the image with all the p_filesz bytes of its part of the file. |
| ElfImage.FlatZeroTail | clks/kernel/elf64.c:236-274 | What it takes up beyond them, to p_memsz, is zero where no other file part reaches. |
| ElfImage.FlatLast | clks/kernel/elf64.c:244-274 | In general the byte at an address is that of the last segment in table order whose p_filesz bytes reach it. |
| ElfImage.FlatZero | clks/kernel/elf64.c:236-274 | And zero where none does. |
| ElfImage.HeaderBytes | clks/kernel/elf64.c:48-79 | A header is accepted exactly when magic, class, byte order, versions, type, machine and sizes have these bytes. |
| ElfImage.RangeExact | clks/kernel/elf64.c:81-91 | The range test without a sum is the test of the sum. |
| ElfImage.Low | clks/kernel/elf64.c:193-216 | The image begins at the lowest address of any segment. |
| ElfImage.High | clks/kernel/elf64.c:193-216 | The image ends at the highest end of any segment. |
| ElfLoad.HoldsFlat | clks/kernel/elf64.c:226-274 | Zeros with the file parts laid over them in table order are the image that those two rules define. |
| ElfLoad.Validate | clks/kernel/elf64.c:93-136 | A file is accepted exactly when header, table and the file range of each PT_LOAD segment are in order. |
| ElfLoad.Inspect | clks/kernel/elf64.c:138-170 | Inspection succeeds for the same files and gives entry, table size, the number of loadable segments and their total memory, the sum kept in 64 bits. |
| ElfLoad.LoadCountIsSize | clks/kernel/elf64.c:138-170 | The segments that are reported are the headers of kind PT_LOAD. |
| ElfLoad.TotalIsMemory | clks/kernel/elf64.c:138-170 | The memory that is reported is that of the segments that are loaded. |
| ElfLoad.PlacedAt | clks/kernel/elf64.c:266-273 | Each loaded segment is as far behind the start of the block as behind the lowest address. |
| ElfLoad.Measure | clks/kernel/elf64.c:193-216 | The first loop finds the extent of the segments, unless the end of one wraps around. |
| ElfLoad.CopySegments | clks/kernel/elf64.c:244-274 | The second loop lays out exactly the image; its late checks never fire; nothing outside the block is written. |
| ElfLoad.SegmentFits | clks/kernel/elf64.c:244-263 | After the first loop every segment lies inside the span and the file, which is why those checks cannot fail. |
| ElfLoad.Load | clks/kernel/elf64.c:172-277 | The load succeeds if and only if file and heap allow it and the span is at most 2^64 - 16; then a fresh block holds exactly the image, every other payload is untouched, and a refusal leaks nothing. |
| ElfWhole.LoadableWritten | clks/kernel/elf64.c:93-216 | A file with any program headers is laid out exactly when no loadable one says more of the file or of memory than there is, and one to sixteen of them take up memory, below the end of the address space. |
| ElfWhole.ValidWritten | clks/kernel/elf64.c:93-136 | It is valid exactly when its loadable headers stay within the file and their memory. |
| ElfWhole.SegmentsOfWritten | clks/kernel/elf64.c:193-216 | Its segments are the headers of kind 1 that take up memory, in their order. |
| ElfLoad.Unload | clks/kernel/elf64.c:279-289 | Unloading releases exactly the block of the image. |
| ElfLoad.UnloadUndoesLoad | clks/kernel/elf64.c:279-289 | The heap after load and unload is the heap before. |
| ElfLoad.EntryPointer | clks/kernel/elf64.c:291-309 | The entry pointer exists exactly when the entry lies in the image, at the same distance from its start. |
| ElfWrite.HeadersReadBack | clks/kernel/elf64.c:48-136 | Program headers written in the layout of the System V gABI, chapter 5, are read back field by field. |
| ElfWrite.HeaderRead | clks/kernel/elf64.c:48-79 | So are the fields of the file header, which passes the header check. |
| Kelf.Bounds | clks/kernel/kelf.c:90-124 | The second loader's first loop finds the same extent, or crossed bounds when there is no segment. |
| Kelf.CopyAll | clks/kernel/kelf.c:135-144 | Its copy loop, which checks nothing, writes the same image and nothing outside the block. |
| Kelf.LoadRuntime | clks/kernel/kelf.c:72-154 | The second loader succeeds if and only if file and heap allow it and the entry lies inside, with the same image; a refusal leaks nothing. |
| Kelf.LoadBoth | clks/kernel/kelf.c:72-154 | Whenever both loaders succeed they agree on size, every byte and the entry offset; they succeed together but for the limit of sixteen segments. |
| Kelf.HugeOverruns | clks/kernel/elf64.c:206-236 | A file with one segment of 2^64 - 1 bytes passes every check and is given an empty block: the case that the bound on the span excludes. |
| TtyState.Step | clks/kernel/tty.c:1096-1160 | Every byte keeps the cursor inside the content area and the parameters within 95 characters. |
| TtyState.Forward | clks/kernel/tty.c:961-984 | Motion in wrapping 32-bit arithmetic never leaves the screen. |
| TtyState.Target | clks/kernel/tty.c:924-1050 | So no cursor control function does, with any parameters. |
| TtyFacts.EraseInReadingOrder | clks/kernel/tty.c:724-781 | Erasing the screen blanks exactly the cells from the cursor on, or up to it, in reading order, or all. |
| TtyFacts.EraseHalves | clks/kernel/tty.c:724-781 | Erasing both halves, in either order, leaves a blank screen. |
| Tty.Terminal.EraseCells | clks/kernel/tty.c:677-722 | In place, the loop blanks exactly the cells of the range in the row and keeps all others. |
| Tty.Terminal.EraseRows | clks/kernel/tty.c:724-781 | In place, the loop blanks exactly the rows of the range. |
| TtyState.Back | clks/kernel/tty.c:559-575 | A backspace leads exactly one cell back, also across the start of a row. |
| TtyFacts.StepsTwice | clks/kernel/tty.c:1244-1274 | A stream read in two parts is the stream. |
| TtyFacts.WriteTwice | clks/kernel/tty.c:1244-1274 | Two writes give the cells, cursor and parser state of one write of both texts. |
| TtyFacts.ChunksDoNotMatter | clks/kernel/tty.c:1244-1274 | So does every way of cutting a stream into writes. |
| TtyFacts.ScrollDocument | clks/kernel/tty.c:471-504 | Scrolling appends one blank row to the document and drops the oldest row once 256 are stored, no other. |
| TtyFacts.LimitOnlyForgets | clks/kernel/tty.c:172-187 | For every stream the scrollback is the last 256 rows of what an unbounded one would hold, and nothing else depends on the limit. |
| TtyMotion.MotionExact | clks/kernel/tty.c:924-1050 | A cursor motion with any text of digits, however long and with any zeros in front, leads where ECMA-48 wants it (sections 8.3.18 to 8.3.22 for A to D and H) if and only if its number is below 2^32 or what is read of it leads to the edge all the same, and a forward motion does not wrap. |
| TtyMotion.PositionExact | clks/kernel/tty.c:924-947 | Cursor position with any two texts of digits goes there or to the edge if and only if each number is below 2^32 or its remainder leads to the edge. |
| TtyMotion.MotionAlone | clks/kernel/tty.c:924-1050 | Without a number every motion is by one, or to the first row or column. |
| TtyMotion.ForwardExact | clks/kernel/tty.c:961-984 | A forward motion is exact, or stopped at the edge, if and only if the sum with the number that is read fits 32 bits and that number is the written one or leads to the edge. |
| TtyMotion.BackwardExact | clks/kernel/tty.c:949-984 | A backward motion is exact, or stopped at the start, if and only if the written number is below 2^32 or its remainder leads to the start. |
| TtyMotion.NumberOfDigits | clks/kernel/tty.c:626-667 | A number of any length, with or without zeros in front, is read modulo 2^32. |
| TtyMotion.DownGoesUp | clks/kernel/tty.c:961-971 | Asked down by 2^32 - 1 rows, however that is written, the cursor goes up one. |
| TtyMotion.DownByOne | clks/kernel/tty.c:626-667 | Asked down by 2^32 + 1 rows, however that is written, the cursor goes down one. |
| TtyMotion.DownAndUp | clks/kernel/tty.c:949-972 | Down and up by the same number of rows comes back, unless an edge is met. |
| TtyMotion.ParamsReadBack | clks/kernel/tty.c:626-667 | Up to sixteen texts of digits written with semicolons are read as their numbers if and only if all are below 2^32. |
| TtyFacts.PrintShows | clks/kernel/tty.c:505-597 | A printed character appears at the cursor in the current rendition, no other cell on the screen changes, and the cursor goes one cell on in reading order, everywhere but in the last cell. |
| TtyFacts.PrintScrolls | clks/kernel/tty.c:538-597 | In the last cell, printing moves the whole document up by one blank row, and the oldest row goes when the scrollback is full. |
| TtyFacts.SaveRestore | clks/kernel/tty.c:1117-1140 | The cursor comes back to where it was saved, whatever text was written in between. |
| TtyCodes.LineFeed | clks/kernel/tty.c:546-556 | A line feed leads to the start of the next row and changes no cell. |
| TtyCodes.LineFeedScrolls | clks/kernel/tty.c:546-556 | In the last row it scrolls the document by one blank row. |
| TtyCodes.CarriageReturn | clks/kernel/tty.c:542-545 | A carriage return leads to the start of the row and changes nothing else. |
| TtyCodes.BackspaceBlanks | clks/kernel/tty.c:558-575 | A backspace leads one cell back in reading order and blanks that cell alone. |
| TtyCodes.TabIsSpaces | clks/kernel/tty.c:577-583 | A tab is four printed spaces. |
| TtyCodes.PrintedCell | clks/kernel/tty.c:505-536 | A printed cell has character, colours and styles of the pen, with the colours exchanged for inverse. |
| TtyCodes.SequenceIsRead | clks/kernel/tty.c:1096-1160 | Escape, a bracket and up to 95 parameter characters lead to a sequence with exactly these. |
| TtyCodes.TooLongIsDropped | clks/kernel/tty.c:1146-1155 | With one more the sequence is dropped. |
| TtyCodes.EraseInLine | clks/kernel/tty.c:677-722 | K erases the row of the cursor from it on, up to it, or all of it, by its number, and no other cell. |
| TtyCodes.EraseInDisplay | clks/kernel/tty.c:724-781 | J does so for the screen in reading order, and 3 forgets the scrollback. |
| TtyCodes.SavesAndRestores | clks/kernel/tty.c:1052-1073 | s saves the position of the cursor and u leads back to it, or to the edge. |
| TtyCodes.BlinkSwitches | clks/kernel/tty.c:1075-1094 | h and l with ?25 switch the blinking on and off. |
| TtyCodes.OthersIgnored | clks/kernel/tty.c:902-1094 | Any other final character only ends the sequence. |
| TtyCodes.RenditionStep | clks/kernel/tty.c:783-900 | m changes the pen alone, by the numbers that are written. |
| TtyCodes.SgrCodes | clks/kernel/tty.c:783-900 | Each code that stands alone gives this pen; other numbers give none. |
| TtyCodes.SgrInTurn | clks/kernel/tty.c:783-900 | Codes work one after the other. |
| TtyCodes.SgrNumbered | clks/kernel/tty.c:603-624 | 38 and 48 with 5 choose one of 256 colours: sixteen, a cube, and 24 greys. |
| TtyCodes.NumberedCube | clks/kernel/tty.c:603-624 | The cube has six levels of each colour. |
| TtyCodes.SgrDirect | clks/kernel/tty.c:783-900 | 38 and 48 with 2 take red, green and blue. |
| Tty.Terminal.constructor | clks/kernel/tty.c:1161-1214 | A terminal starts blank, at the origin, with an empty scrollback. |
| Tty.Terminal.PushRow | clks/kernel/tty.c:172-187 | The ring holds the last 256 rows pushed, oldest first, also after it has wrapped. |
| Tty.Terminal.LogicalToPhysical | clks/kernel/tty.c:148-156 | The map from logical to physical rows always leads to the row of that age. |
| Tty.Terminal.Scroll | clks/kernel/tty.c:471-504 | In place, the row loop is the scroll of the document. |
| Tty.Terminal.PutCell | clks/kernel/tty.c:505-536 | In place, exactly one cell changes. |
| Tty.Terminal.PutCharRaw | clks/kernel/tty.c:538-597 | In place, line feed, return, backspace, tab and printing do what the specification says. |
| Tty.Terminal.ParseParams | clks/kernel/tty.c:626-667 | The loop over the buffer yields the numbers between the semicolons, sixteen at most, in 32 bits. |
| Tty.Terminal.ApplySgr | clks/kernel/tty.c:783-900 | The rendition loop, with its 256-colour and true-colour forms, folds the codes from left to right. |
| Tty.Terminal.ClearLineMode | clks/kernel/tty.c:677-722 | In place, exactly the selected cells of the line are blank. |
| Tty.Terminal.ClearScreenMode | clks/kernel/tty.c:724-781 | In place, exactly the selected cells are blank; mode 3 empties the ring as well. |
| Tty.Terminal.CsiFinal | clks/kernel/tty.c:902-1094 | In place, every control function has its specified effect on cells, cursor, rendition and saved position. |
| Tty.Terminal.AddParam | clks/kernel/tty.c:1146-1155 | A sequence that outgrows the buffer is dropped; the buffer stays terminated. |
| Tty.Terminal.Feed | clks/kernel/tty.c:1096-1160 | One byte on the real cell arrays, ring and buffer is one step of the automaton. |
| Tty.Terminal.WriteN | clks/kernel/tty.c:1244-1274 | A whole write refines the specification, for every text. |
| Tty.Terminal.Redraw | clks/kernel/tty.c:422-470 | The window drawn at scroll offset k is exactly the document rows that begin k before the screen. |
| Tty.Terminal.PageUp | clks/kernel/tty.c:1343-1376 | One screen back, as far as there are stored rows. |
| Tty.Terminal.PageDown | clks/kernel/tty.c:1378-1412 | One screen on, as far as the current screen. |
| Scheduler.FullRound | clks/kernel/scheduler.c:120-160 | From the start of a slice, as many ticks as all slices together give every task exactly its slice and come back to the same task. |
| Scheduler.BoundedWait | clks/kernel/scheduler.c:120-160 | At any moment, also in the middle of a slice, every other task gets its turn, with a whole slice, after no more ticks than the slices of the others. |
| Scheduler.TurnsTaken | clks/kernel/scheduler.c:120-160 | The first j tasks in table order have had one whole slice each when the next one starts. |
| Scheduler.WholeSlice | clks/kernel/scheduler.c:120-160 | A task gets every tick of its slice, and the next one starts with a full slice. |
| Scheduler.SearchNext | clks/kernel/scheduler.c:27-39 | Where every task can run, the search stops at the next one in the table. |
| Scheduler.Scheduler.constructor | clks/kernel/scheduler.c:41-55 | The idle task alone, running. |
| Scheduler.Scheduler.Add | clks/kernel/scheduler.c:57-86 | A new task is ready with a slice of at least one tick; a full table is refused unchanged. |
| Scheduler.Scheduler.NextReady | clks/kernel/scheduler.c:27-39 | The loop finds what the search specification names. |
| Scheduler.Scheduler.OnTimerTick | clks/kernel/scheduler.c:120-160 | Exactly the current task is running, with 1 to its slice ticks left, after every tick; a tick during a dispatch changes no turn. |
| Scheduler.Scheduler.DispatchCurrent | clks/kernel/scheduler.c:92-118 | In place, a dispatch counts one run of the current task and calls its entry with the flag set; whatever ticks and dispatches arrive meanwhile, the state is the specified one and the flag is clear again. |
| Scheduler.Scheduler.ServeAll | clks/kernel/scheduler.c:92-160 | Any nesting of ticks and dispatches on the task table refines the specification. |
| Scheduler.OnlyNoted | clks/kernel/scheduler.c:92-130 | While a task is run, ticks change nothing but the tick that is reported, and dispatches nothing at all. |
| Scheduler.TurnsOfHistory | clks/kernel/scheduler.c:92-160 | In every history of ticks and dispatches, however nested, the turns are those of the ticks outside of dispatches. |
| Scheduler.RunsOfHistory | clks/kernel/scheduler.c:92-118 | And exactly the dispatches that no other one contains are counted as runs. |
| Scheduler.DispatchNotes | clks/kernel/scheduler.c:92-118 | A dispatch notes one run of the current task with its tick, and of no other; one inside another notes nothing. |
| Scheduler.RoundOfHistory | clks/kernel/scheduler.c:92-160 | Once there have been as many ticks outside of dispatches as all slices together, every task has had exactly its slice. |
| Stats.RecentNext | clks/kernel/syscall.c:1653-1687 | A further record enters the window and the oldest leaves it once it is full, with the counts following. |
| Stats.CountIsMultiplicity | clks/kernel/syscall.c:1653-1687 | What is counted is how often a number occurs. |
| Stats.Recorder.constructor | clks/kernel/syscall.c:1644-1651 | All counters and the ring start empty. |
| Stats.Recorder.CountOut | clks/kernel/syscall.c:1666-1671 | The guarded decrement never meets zero, so the counts stay those of the window. |
| Stats.Recorder.Record | clks/kernel/syscall.c:1653-1687 | After any sequence of records, ring, total and both counters belong to that sequence. |
| Stats.Recorder.RecentId | clks/kernel/syscall.c:1705-1711 | The recent counter of an id is the number of times it occurs in the last min(total, 256) records. |
| Stats.Recorder.Id | clks/kernel/syscall.c:1693-1699 | The total counter of an id is the number of times it was ever recorded. |
| Numbers.ValueOfDigits | cleonos/c/src/stdio.c:129-169 | Printing in any base from 2 to 16 and reading back is the identity. |
| Numbers.NoLeadingZero | cleonos/c/src/stdio.c:129-169 | A positive number is printed without leading zero. |
| Numbers.WordFits | cleonos/c/src/stdio.c:129-169 | The 64-character digit buffer holds every 64-bit number in every base. |
| Numbers.DigitsInOrder | cleonos/c/src/libc_stdlib.c:8-22 | Digits of any base are 0 to 9 and then the letters, in either case. |
| Numbers.DigitsPrinted | cleonos/c/src/stdio.c:129-169 | These are the sixteen digits that are printed. |
| Stdlib.ReadDigits | cleonos/c/src/libc_stdlib.c:181-198 | The digit loop yields the true value of the digits, or stops at the limit exactly when it is exceeded. |
| Stdlib.Exceeds | cleonos/c/src/libc_stdlib.c:190-195 | The division test finds overflow exactly, without computing the product. |
| Stdlib.ParseLong | cleonos/c/src/libc_stdlib.c:137-220 | strtol is the signed value of the longest digit run behind space, sign and prefix, clamped to long, with the end pointer there, or at the start without digits. |
| Stdlib.ParseUnsigned | cleonos/c/src/libc_stdlib.c:62-135 | strtoul is the same in unsigned arithmetic, where a sign negates in 64 bits. |
| Stdlib.StrtolClamps | cleonos/c/src/libc_stdlib.c:137-220 | On every signed digit string strtol returns the true integer clamped to the range of long, and reads all of it. |
| Stdlib.StrtolOfPrinted | cleonos/c/src/libc_stdlib.c:137-220 | strtol of any printed long, LONG_MIN included, returns it. |
| Stdlib.StrtoulOfPrinted | cleonos/c/src/libc_stdlib.c:62-135 | strtoul of any printed unsigned long returns it. |
| Stdlib.StrtoulOfHex | cleonos/c/src/libc_stdlib.c:62-135 | The same in hexadecimal, in both cases, with and without prefix. |
| C11.StrtolExact | cleonos/c/src/libc_stdlib.c:137-220 | For every text, strtol returns the value and end that C11, section 7.22.1.4, asks for if and only if the text is not a bare 0x, with no digit behind it, in base 16. |
| C11.StrtoulExact | cleonos/c/src/libc_stdlib.c:62-135 | For every text, so does strtoul if and only if the text is not such a bare prefix and not a minus sign with a number above 2^64 - 1. |
| C11.ReadsSubject | cleonos/c/src/libc_stdlib.c:62-220 | But for a bare prefix, sign, value and end that the code reads are those of the longest part of the form that the standard expects. |
| C11.NegativeOverflow | cleonos/c/src/libc_stdlib.c:62-135 | A minus sign and any number of 2^64 or more give 1, which the standard does not allow. |
| C11.BareZero | cleonos/c/src/libc_stdlib.c:62-220 | For the text 0x in base 16 both functions give zero and the end 0, where the standard asks for the end 1. |
| Stdio.U64ToBase | cleonos/c/src/stdio.c:129-169 | The digits and a terminator are stored when they fit, else nothing is touched; nothing else ever is. |
| Stdio.I64ToDec | cleonos/c/src/stdio.c:171-197 | The decimal form of any long with its sign, or nothing when it does not fit. |
| Stdio.Sink.Emit | cleonos/c/src/stdio.c:95-127 | The buffer keeps the longest prefix that fits of all that was emitted, and no other character is written. |
| Stdio.Sink.Finish | cleonos/c/src/stdio.c:83-93 | And then ends with a terminator. |
| Stdio.Sink.Convert | cleonos/c/src/stdio.c:251-325 | Each conversion emits the text of its argument. |
| Stdio.Format | cleonos/c/src/stdio.c:199-344 | The format loop emits the whole expansion and returns its length, at most 2^31 - 1. |
| Stdio.Vsnprintf | cleonos/c/src/stdio.c:421-432 | The buffer holds exactly the longest prefix that fits and a terminator, and stays as it was behind it, or altogether when its size is zero; the result is the full length, capped at 2^31 - 1. |
| Stdio.ScanOfPrint | cleonos/c/src/stdio.c:199-344 | Formatting any long with %ld and parsing the text returns it. |
| StdioFacts.ConversionPrints | cleonos/c/src/stdio.c:199-344 | A conversion with any length modifier takes the next argument and prints its text, and the format goes on behind it. |
| StdioFacts.TextStays | cleonos/c/src/stdio.c:206-213 | Text without a percent sign stands for itself. |
| StdioFacts.PercentSign | cleonos/c/src/stdio.c:217-223 | Two percent signs print one. |
| StdioFacts.UnknownPrints | cleonos/c/src/stdio.c:317-325 | Any other character is printed behind its percent sign and takes no argument. |
| StdioFacts.SignedText | cleonos/c/src/stdio.c:269-285 | d and i print the int in the low 32 bits, with a length modifier the long in all 64. |
| StdioFacts.UnsignedText | cleonos/c/src/stdio.c:286-304 | u, x and X print the same bits unsigned, in base 10 and in 16 in either case. |
| StdioFacts.OtherText | cleonos/c/src/stdio.c:251-315 | Pointers, characters and strings, a missing one as (null). |
| StdioFacts.IntReadsBack | cleonos/c/src/stdio.c:199-344 | Any int printed with %d amid text is read back. |
| Resolve.Idempotent | cleonos/c/apps/cmd_runtime.c:390-411 | Resolving a resolved path, from any directory, changes nothing. |
| Resolve.AcceptedByFs | cleonos/c/apps/cmd_runtime.c:390-411 | A normaliser with room accepts every resolved path as the same path without its slash. |
| Resolve.TempTestsAgree | cleonos/c/apps/cmd_runtime.c:483-491 | The user and the kernel test for being under temp agree on every resolved path. |
| Resolve.ResolvedIsClean | cleonos/c/apps/cmd_runtime.c:342-411 | A resolved path is absolute, without dot, dot-dot or empty components: the fold of directory and argument. |
| Resolve.StepByStep | cleonos/c/apps/cmd_runtime.c:342-411 | A path is resolved step by step: what follows a slash is resolved from where the part in front of it leads, and the whole fails when a part does. |
| Resolve.RelativeFromCwd | cleonos/c/apps/cmd_runtime.c:390-411 | A relative argument is resolved like the current directory, a slash and the argument, from anywhere. |
| Resolve.AbsoluteFromRoot | cleonos/c/apps/cmd_runtime.c:390-411 | An absolute one does not depend on the current directory. |
| Resolve.Down | cleonos/c/apps/cmd_runtime.c:284-388 | From a directory, a name leads to that entry, exactly when that fits. |
| Resolve.Up | cleonos/c/apps/cmd_runtime.c:319-388 | Two dots lead to the directory above, or stay in the root. |
| Resolve.Stay | cleonos/c/apps/cmd_runtime.c:342-411 | One dot or no argument leads nowhere else. |
| Resolve.UpUndoesDown | cleonos/c/apps/cmd_runtime.c:319-340 | Leaving a directory that was entered comes back, and the root is its own parent. |
| Resolve.FitsAtTheEnd | cleonos/c/apps/cmd_runtime.c:284-388 | When every step fits the buffer, so does the result with its terminator. |
| Resolve.PushComponent | cleonos/c/apps/cmd_runtime.c:284-317 | In place, the component is appended exactly when it fits, and nothing behind the terminator is written. |
| Resolve.ShellPushComponent | clks/kernel/shell.c:396-422 | The kernel shell's copy does the same. |
| Resolve.PopComponent | cleonos/c/apps/cmd_runtime.c:319-340 | In place, the buffer holds the parent directory, terminated. |
| Resolve.ParseInto | cleonos/c/apps/cmd_runtime.c:342-388 | In place, the scan folds the components in order and fails exactly when a step does not fit. |
| Resolve.ResolvePath | cleonos/c/apps/cmd_runtime.c:390-411 | The buffer holds the resolved path, and the call fails exactly when there is none that fits at every step; nothing behind the buffer is written. |

## Left out

- Null pointers for paths, out-parameters and tables are rejected at once by the code and are not
  represented; null data pointers are.
- Counters, handles, pids and ticks are unbounded: fewer than 2^64 - 1 pids, handles, calls of the
  allocator and references to a library are ever used, as pid uniqueness needs.
- Frees of stale or foreign pointers and calls before start-up: the magic tests of the heap never
  fail in the model, since headers are written by the allocator alone.
- Payloads are not claimed to be aligned: the header has 40 bytes.
- SyscallFs.WriteCommon: the source of a call with more than one chunk is not a payload that the
  file system owns, because overwriting the file would free the rest of it; a call with one chunk
  (SyscallFs.PutChunk) and a single write (Fs.FileSystem.WriteAll) have no such restriction.
- Listing and reading of the virtual /proc files through cp (Copy.CopyFile asks the file system
  alone whether the source is there).
- ExecState.RunSlot: file reading and loading of the image are an input of the run, as is whether
  standard stream overrides are valid; ElfLoad proves the loader itself.
- ExecState.DoFault: the instruction pointer is taken to lie in the program, and unwinding of the
  C stack is not part of this model.
- Exec.Kernel.RunPath: the record of a run whose stream overrides are invalid is cleared before it
  runs and does not appear in the phase history.
- The executor's parallel stacks are one array of frames; arguments, environment, terminal index,
  memory accounting, request counters, symbol lookup and stopping all processes of a terminal (a
  series of kills) are left out.
- Sleeping is yielding until a tick is reached, so it is a list of yields here.
- ElfWrite.HeaderRead: fields of the file header that no loader reads are not written.
- Names, run counters and round robin of kernel applications beside the loader.
- Pixels: fonts, deferred drawing, dirty rows, cursor blinking, status bar and the desktop terminal;
  Tty.Terminal.Redraw returns the rows that are drawn. Switching between terminals.
- Tty.Terminal.constructor: one terminal on a frame buffer of 1 to 128 by 1 to 256 cells, the sizes
  that the cell arrays have room for.
- Blocked tasks, which nothing creates, and task names.
- The virtual /proc directory listing and the table of all processes, which append in the same way
  as the file of one process; whether a process has such a file is a search for its pid.
- The kernel shell's pop, scan and resolve have the same text as those of user programs and are not
  repeated; its line editor, history and command lookup are left out.
- Stdio.Format: a missing argument or one of the wrong kind, undefined in C, reads as zero or as no
  text; sinks that write to a descriptor are left out.
- Children listing and counting, the log journal, drivers, page frames, mouse, sound, configuration
  menus, the Wine runner and the small commands would add only easy members or depend on hardware.
