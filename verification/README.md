# Linux 0.99.12: nine engines, modelled and proved

A Dafny 4.11 model of the parts of the kernel whose correctness rests on an invariant rather than on a single
branch. `dafny verify dfyconfig.toml` checks everything.

| engine | files | main results |
|---|---|---|
| DEFLATE decoder (`zBoot/`) | `BitStrings` `Bytes` `Canonical` `Huffman` `Huft*` `Crc` `Window` `Reader` `Deflate*` `Inflate*` | `HuftResult.HuftBuild`, `Inflate.Inflate`, `InflateWindow.WindowIrrelevant` |
| record locks (`fs/locks.c`) | `FileLocks` `Lock*` | `LockIt.Apply`, `LockTable.Table.SetLk` |
| copy-on-write and swap (`mm/`) | `Vm*` `Swap*` | `VmRun.RunInv`, `VmRun.ForkIsolates`, `VmRun.ReadsLastWrite` |
| ext2 block tree and bitmaps (`fs/ext2/`) | `Ext2*` | `Ext2File.Inode.GetBlk`, `Ext2File.Inode.Truncate`, `Ext2Alloc.Groups.NewBlock` |
| buffer cache (`fs/buffer.c`) | `Buffer*` | `BufferSteps.RunInv`, `BufferSteps.UsedStays`, `BufferHash.RunFinds` |
| FAT chains (`fs/msdos/`) | `Fat*` | `FatVolume.Volume.GetCluster`, `FatVolume.Volume.FatFree` |
| kmalloc (`lib/malloc.c`) | `Kmalloc*` | `Kmalloc.Allocator.Kmalloc`, `Kmalloc.Allocator.Kfree` |
| timers and scheduler (`kernel/sched.c`) | `Timers` `TimerLists` `Scheduler` | `Timers.RunsOnTime`, `Scheduler.NoStarvation` |
| pipes (`fs/pipe.c`) | `Pipe*` | `PipeRuns.InOrder`, `PipeRuns.Atomic` |

How the models are built:

- `Inflate.Inflate` is stated against `Deflate`, a specification written from sections 3.2.2 to 3.2.7 of RFC 1951 on
  the bits of the input; nothing in it mentions tables, windows or buffers. The steps from the code to it are the
  table theorem (`HuftResult`), the bit buffer (`Reader`), the sliding window (`Window`) and the CRC (`Crc`).
- Where the code sleeps, a call is split into the steps between its sleeps (`VmRun`, `BufferSteps`, `Kmalloc`,
  `PipeRuns`), each step re-reads what the code re-reads, and the results are about every run of such steps.
- Invariants say what no step breaks; what each step does is stated beside them, exactly (`VmSteps`, `BufferDoes`,
  `Scheduler.ScheduledChooses`, `PipeRuns.ReadReturns` and `WriteReturns`), and tables are stated by what they mean
  (`DeflateTables`, `Crc.PolyIs`, `FatTable.Packed`).
- Data that is changed in place is a class or an array; each method is tied to a function of the old state, and what
  the system promises is proved about those functions.
- Disk, user memory and the hardware are plain maps and sequences; what comes from outside (free pages, signals,
  whether memory is short) is a parameter.

Where the code does not do what one would expect, the model does what the code does, and the exact condition is proved:

- `huft_build` makes a table below the root wider than its level allows in some cases, and then leaves cells unwritten.
  `HuftResult.Misfit` says when, in terms of the code lengths; lookup is right if and only if it does not happen
  (`HuftBuild`), it does happen for some complete codes (`HuftSafe.MisfitExample`), and never for the trees inflate
  builds (`HuftSafe.NoMisfit`).
- inflate does not check that a match starts after the beginning of the output: it then copies what the window held
  before. The output is independent of that if and only if every match stays within the output
  (`InflateWindow.WindowIrrelevant`); a stream of three bytes does not (`ReachesBack`).
- The test for adjacent locks adds one to the request's end in 32 bits. The lock list stays well formed if and only if
  a request to OFFSET_MAX touches no lock of its own kind (`LockIt.Apply`); the bytes come out right if and only if no
  lock of another kind follows (`LockClash.StillPainted`); an input is `LockTable.ClashInput`, and what it does
  `ClashRun`. Entries and compatibility of owners survive every request (`LockTable.Table.SetLk`).
- On a list that such a clash left, lock_it may return -ENOLCK with the list changed: exactly if it had replaced a lock
  of another kind, or enlarged one of its own, before it came to the lock to be split (`LockIt.Apply`,
  `LockFail.FailsWhen`); `LockRun.FailRun` is a run of five requests that does.
- `ext2_getblk` accepts one block number too many (`Ext2Blocks.FirstIndexInRange`), and then goes past the end of the
  triple indirect block if and only if there is one or one can be made (`Ext2File.Inode.GetBlk`).
- `ext2_free_block` counts a block as freed even if it was free; the counts stay right if and only if it was in use
  (`Ext2Alloc.Groups.FreeBlock`).
- `remove_from_free_list` leaves the list pointing at the last buffer it removes; the list is one again if and only if
  another stays (`BufferLists.FreeList.Remove`).
- `pipe_read` with a count of 0 on a pipe that is not empty returns -EAGAIN if and only if there are writers
  (`PipeRuns.ReadReturns`, with the input `ZeroRead`).

## Model

| member | source | states |
|---|---|---|
| `HuftResult.HuftBuild` | zBoot/inflate.c:105-309 | Status 2 exactly when the lengths oversubscribe the Kraft sum, 1 exactly when they leave codes unused and the longest is more than one bit. For all other lengths, complete or not, used or not: looking up every long enough bit string in the tables gives the symbol and length of RFC 1951 prefix decoding where the string starts with a symbol's code, and the invalid mark elsewhere if the symbol list is read only where it was written; this holds if and only if no table is `Misfit`. The tables are sound, with a single one when the root takes the longest code. |
| `HuftResult.TablesDecode` | zBoot/inflate.c:194-303 | Lookup in the finished tables is canonical prefix decoding of every string that starts with a symbol's code, if and only if no codeword makes a table wider than the level's `l` bits. |
| `HuftResult.RoomLeft` | zBoot/inflate.c:166-172 | The running remainder goes negative exactly for oversubscribed lengths, and otherwise is the number of unused codes of the longest length. |
| `HuftResult.WideIsMisfit` | zBoot/inflate.c:218-235 | A codeword makes a table too wide exactly when the condition `Misfit`, stated on the code lengths alone, holds. |
| `HuftSafe.NoMisfit` | zBoot/inflate.c:218-235 | No table is too wide when the root covers half the longest code, or the code is complete with fewer than 2^m symbols: which covers every tree that inflate builds. |
| `HuftSafe.MisfitExample` | zBoot/inflate.c:224-234 | Lengths 1, 3, 3, 3, 3 with one root bit are a complete code for which a table is made too wide. |
| `HuftSafe.PrefixFree` | zBoot/inflate.c:166-190 | A bit string starts with the code of at most one symbol. |
| `HuftSafe.EveryStringMatches` | zBoot/inflate.c:166-190 | With a complete code every long enough string starts with the code of a symbol. |
| `HuftLoops.BackIncrement` | zBoot/inflate.c:289-292 | Incrementing the bit-reversed code from its top bit down gives the bit-reversed successor of the codeword. |
| `HuftLoops.TableWidth` | zBoot/inflate.c:218-235 | The width chosen holds every codeword below the table, and exceeds `l` exactly when the codeword needs more than `l` bits, or exactly `l` while its length runs out before the table is full. |
| `HuftLoops.FillCells` | zBoot/inflate.c:284-287 | Exactly every 2^m-th cell from the first one becomes the entry. |
| `Huft.SortSymbols` | zBoot/inflate.c:176-190 | The counting sort lists the symbols of nonzero length in order of length, then symbol. |
| `Huft.BuildTables` | zBoot/inflate.c:204-303 | The loops over lengths and codewords leave tables whose every cell tells the truth about the codeword it stands for, and say whether one was made too wide. |
| `HuftPlace.PlaceWord` | zBoot/inflate.c:206-301 | Placing one codeword keeps the state of the open tables and goes on to the next codeword in canonical order. |
| `HuftOpen.OpenTables` | zBoot/inflate.c:214-260 | Tables are opened down to the level the codeword needs, each hung from its parent's cell. |
| `HuftWalk.WalkDecodes` | zBoot/inflate.c:359-368 | With no oversized table, walking the tables on any string of at least g bits ends at the codeword it starts with. |
| `HuftWalk.WalkSticks` | zBoot/inflate.c:359-368 | With an oversized table some string of g bits reaches a cell that was never written. |
| `Canonical.KraftAtMax` | zBoot/inflate.c:166-172 | The Kraft sum compares with one as the end of the longest codes compares with 2^g. |
| `Huffman.SuccessorBE` | zBoot/inflate.c:289-292 | The successor of a codeword has the next number, wrapping at all ones. |
| `Crc.MakeCrc` | zBoot/misc.c:232-263 | Entry i of the table is the register after eight shifts of i. |
| `Crc.Checksum.UpdCrc` | zBoot/misc.c:151-169 | The table-driven register equals shifting the bits in one at a time (section 8 of RFC 1952); the complement is returned. |
| `Crc.BurstDetected` | zBoot/misc.c:151-169 | Two messages of one length that differ only within 32 consecutive bits have different CRCs. |
| `Crc.PolyIs` | zBoot/misc.c:237-248 | The polynomial is the customary number 0xedb88320, and the register begins with all ones. |
| `Window.Window.Copy` | zBoot/inflate.c:401-424 | The copy in pieces through the 32K window, with its block moves and flushes, extends the history as one-byte-at-a-time copying from `dist` back does, for every length and every distance up to the window size. |
| `Window.Window.Put` | zBoot/inflate.c:371-376 | A literal is appended to the history. |
| `Window.Window.Flush` | zBoot/misc.c:213-223 | The window's bytes go to the output and the CRC register follows the whole output. |
| `Window.CopyApart` | zBoot/inflate.c:407-414 | A piece no longer than the distance copies bytes that are there already, so a block move is right. |
| `Reader.Reader.Need` | zBoot/inflate.c:88-91 | The buffer then holds the next n bits of the stream, or the input, with the one byte behind it that fill_inbuf also hands out, was used up. |
| `Reader.Reader.Dump` | zBoot/inflate.c:88-91 | The position moves on by n bits. |
| `Reader.Reader.GiveBack` | zBoot/inflate.c:799-805 | Whole bytes read ahead are returned: the input pointer is at the first byte after the bits used. |
| `InflateCodes.Decode` | zBoot/inflate.c:359-368 | Decoding bit by bit from the reader gives what looking up the rest of the stream in the tables gives, and consumes as many bits. |
| `InflateCodes.GotSymbol` | zBoot/inflate.c:359-368 | That is the symbol whose code stands at the position, and the length of that code; where none stands it is the invalid mark, if the symbol list is read only where it was written. |
| `InflateBlock.Compressed` | zBoot/inflate.c:334-436 | inflate_codes does what the compressed data of section 3.2.3 of RFC 1951 says, up to its end-of-block code; nothing is said only once bits that are no symbol's code are looked up in a tree that leaves codes over and symbols out (`Odd`). |
| `InflateBlock.Match` | zBoot/inflate.c:384-424 | A length/distance pair is decoded as in section 3.2.5 and its match copied, also with a distance tree of a single code. |
| `DeflateTables.Distances` | zBoot/inflate.c:55-63 | The two tables of distances: exactly the distances from 1 to 32768, the size of the window, can be written, each in one way; with `DistanceBits`, the number of extra bits of each symbol. |
| `DeflateTables.DistanceBits` | zBoot/inflate.c:59-63 | Extra bits: none for the first four symbols, then one more with every second. |
| `DeflateTables.Lengths` | zBoot/inflate.c:48-54 | The two tables of lengths: exactly the lengths from 3 to 258 can be written, each in one way, but 258 in two. |
| `DeflateTables.LengthBits` | zBoot/inflate.c:52-54 | Extra bits: none for the first eight symbols and the last, else one more with every fourth. |
| `DeflateTables.BorderIs` | zBoot/inflate.c:46-47 | The lengths of the code length code come as 16, 17, 18, 0, and then from 8 outwards. |
| `InflateBlock.StoredBlock` | zBoot/inflate.c:440-492 | A stored block does what section 3.2.4 says; it is an error when the complement of its length is wrong. |
| `InflateDynamic.MakeTree` | zBoot/inflate.c:105-309 | For inflate's own trees huft_build accepts what the format allows, a single code of one bit included, and the tables then decode the tree. |
| `InflateDynamic.OneCode` | zBoot/inflate.c:307-308 | A tree with a single code of one bit is accepted, and its symbol is found where that bit is a zero, though a code and symbols are left over. |
| `InflateDynamic.FixedBlock` | zBoot/inflate.c:496-546 | A block with the fixed trees of section 3.2.6 means what it should. |
| `DeflateTables.FixedIs` | zBoot/inflate.c:511-526 | The lengths of the fixed trees are those of section 3.2.6. |
| `InflateDynamic.SetLit` | zBoot/inflate.c:511-518 | The four loops set them. |
| `InflateDynamic.ReadLengths` | zBoot/inflate.c:622-666 | The code lengths with their repeat codes are read as section 3.2.7 says, with any code length code that is accepted. |
| `Inflate.DynamicBlock` | zBoot/inflate.c:550-724 | A dynamic block means what section 3.2.7 says, single-code trees included. |
| `Inflate.InflateOne` | zBoot/inflate.c:728-771 | One block of any type, and whether it is the last. |
| `Inflate.Inflate` | zBoot/inflate.c:775-816 | A deflated stream is turned into the bytes it stands for, with their CRC-32 and the number of input bytes used; anything else ends in an error or at the end of the input, except that nothing is said once bits that are no symbol's code are looked up in an accepted tree whose symbol list was not all written (`Odd`). A good stream is cut short only if fewer than 64 bits follow it. |
| `InflateWindow.WindowIrrelevant` | zBoot/inflate.c:400-424 | The output of a stream is the same whatever the window held before if and only if no match refers to a byte that the stream has not produced. |
| `InflateWindow.ReachesBack` | zBoot/inflate.c:400-424 | Three bytes (3, 2, 0) inflate to three copies of the window's last byte. |
| `InflateWindow.ReachesBytes` | zBoot/inflate.c:400-424 | Those bits are the bits of the bytes 3, 2, 0. |
| `LockIt.Apply` | fs/locks.c:266-394 | lock_it. On any list with each owner's locks together, even if some are unmerged, overlap or cover no byte: no entry is lost, no other owner loses or gains a byte, the requester gets none he neither asked for nor had; ENOLCK exactly when `Fails`, and then the free list is as it was and the list too, unless a lock of another kind was replaced or one of the request's kind enlarged before the lock to be split (`Alters`). On a well-formed list: EINVAL exactly for an unlock that touches nothing, ENOLCK exactly when fewer entries are free than the request needs (one, unless it is an unlock or an old entry is reused, and one more if a lock reaches over it on both sides), and either changes nothing; a granted request is painted over the list, but for the locks behind a clash; and the list stays well formed (grouped, sorted, disjoint, coalesced) if and only if the request does not both reach OFFSET_MAX and touch a lock of its own kind. |
| `LockIt.SameKind` | fs/locks.c:290-321 | One step of the scan at a lock of the request's own kind, with the end-plus-one test in 32 bits: the lock is passed, merged into the request or ends the scan, and what the lists mean is kept. |
| `LockIt.OtherKind` | fs/locks.c:325-362 | One step at a lock of another kind: it is passed, trimmed, taken over or freed, and what the lists mean is kept. |
| `LockIt.Finish` | fs/locks.c:370-393 | After the scan the request is put between what is left, splitting a lock that reaches over both its ends; the outcome is then that of `Apply`. |
| `LockRight.FinalRight` | fs/locks.c:290-393 | The list a granted request leaves is painted, but for a clash, and well formed exactly without one. |
| `LockRight.SpentIsNeed` | fs/locks.c:370-393 | The entries taken are exactly those the request needs by the list it is put to. |
| `LockFail.FailsWhen` | fs/locks.c:370-391 | On any list: too few entries exactly if, before any lock is taken, fewer are free than one for the request (none for an unlock) and one for a lock to be split; or one lock was taken, none is free, and the next lock met is to be split. The list left is the old one but for the lock taken. |
| `LockFail.AltersIs` | fs/locks.c:301-361 | That differs from the old list exactly if the lock taken is of another kind, or is enlarged. |
| `LockRun.FailRun` | fs/locks.c:290-391 | Four granted requests of one owner and a fifth, without a free entry, that fails and yet turns a read lock into a write lock; after the second he still holds what he unlocked. |
| `LockClash.NoClashPaints` | fs/locks.c:290-321 | Without a clash the list holds exactly the painted bytes. |
| `LockClash.StillPainted` | fs/locks.c:297 | With a clash the bytes still come out right exactly when the owner has no lock of another kind from the first clash on. |
| `LockClash.ClashPut` | fs/locks.c:297-301 | The list left by a clash is not well formed. |
| `FileLocks.OneKind` | fs/locks.c:249-265 | In a well-formed list an owner holds a byte with at most one kind of lock. |
| `LockTable.CopyFlock` | fs/locks.c:193-220 | A user's request becomes a nonempty range of offsets from the start, the file position or the end of the file, ending at the largest offset if it would run past it; it is refused exactly if the file is not regular, the kind or base is unknown, the length is negative, or the first offset is negative or too large. |
| `LockTable.GrantSafe` | fs/locks.c:226-244 | Granting a request that conflicts with no lock leaves no byte held by two owners unless both only read. |
| `LockTable.BlockedIsContended` | fs/locks.c:226-244 | In a well-formed list entries block a request exactly if another owner holds one of its bytes and one of the two is for writing. |
| `LockTable.Table.SetLk` | fs/locks.c:92-165 | In every state: a request waits (F_SETLKW) or is refused with EAGAIN exactly if an entry of another owner touches its range and one of the two is for writing, EBADF exactly if the file is not open for it; every file stays free of conflicts, the entries stay partitioned between the lists and the free list, no other file changes; a refusal changes nothing; otherwise the list is what lock_it leaves, within the bytes held and asked for; ENOLCK means `Fails`, leaves the free list alone, and changes the list exactly if `Alters`. On a well-formed list the request is blocked exactly if another owner holds one of its bytes and one of the two is for writing; a grant paints exactly the request, but for a clash, so that each byte is held as asked; the list stays well formed if and only if there is no clash; EINVAL exactly for a bad request or an unlock that touches nothing; ENOLCK means too few free entries and changes nothing. |
| `LockTable.Table.RemoveLocks` | fs/locks.c:171-186 | On any list, closing gives up exactly the task's locks on that file; the entries stay partitioned, and a well-formed list stays so. |
| `LockTable.EndPlusOne` | fs/locks.c:297 | The comparison in 32 bits differs from the mathematical one exactly when the request ends at OFFSET_MAX and the lock does not start at the smallest integer. |
| `LockTable.ClashInput` | fs/locks.c:193-220 | A read lock from 100 on and a request to read-lock the whole file are an input at which the request clashes. |
| `LockTable.ClashRun` | fs/locks.c:290-301 | lock_it grants it, takes another table entry, and leaves a list that is not well formed. |
| `VmRun.StepInv` | mm/memory.c:79-377 | Every step of fork, write fault, store, unmap, zeromap, swap-out, swap-in and sharing keeps: mem_map counts the entries naming each frame plus the kernel's references, swap_map counts the entries holding each slot, and a private writable page has one reference. |
| `VmRun.BootedInv` | mm/memory.c:1040-1084 | Before anything is mapped the invariant holds. |
| `VmRun.RunInv` | mm/memory.c:79-377 | So over every run. |
| `VmRun.RunView` | mm/memory.c:548-646 | Over every run in which a task neither writes, unmaps nor maps anew a private page of its own, it reads the same there, its own faults and sharing included. |
| `VmRun.ForkIsolates` | mm/memory.c:206-263 | After a fork, whatever anyone does, parent and child each go on reading what the parent read, until they themselves write, unmap or map it anew. |
| `VmRun.ReadsLastWrite` | mm/memory.c:548-646 | A task reads its own last write to a private page, whatever happens in between, until it writes, unmaps or maps it anew. |
| `VmSteps.FaultDoes` | mm/memory.c:613-646 | Exactly when a write fault signals, needs a page, or is resolved, and the entry after it. |
| `VmSteps.CopyFaultDoes` | mm/memory.c:548-607 | With a page at hand: a shared or reserved frame is copied into it for this task alone and loses one reference; otherwise the page is free again and a lone page is writable. |
| `VmSteps.ForkDoes` | mm/memory.c:243-257 | Fork copies no page: the child has an entry exactly if the parent has, the same one, read-only if private, with one more reference. |
| `VmSteps.SwapInDoes` | mm/swap.c:193-222 | The page of the slot comes back into the fresh frame, writable, private and dirty, and the slot has one user fewer; if the entry has changed meanwhile, nothing changes and the frame is free again. |
| `VmSteps.SwapOutDoes` | mm/swap.c:224-261 | A page is put out exactly if it is present, not reserved, not accessed, not recent, and clean or unshared with a slot at hand; a dirty one is then in the slot; one reference goes, and the result counts those left; otherwise the accessed bit is cleared and that is all. |
| `VmSteps.ShareDoes` | mm/memory.c:698-747 | A page is shared exactly if the other task has it clean and this one has none, and for writing a spare page is there; the entries of both afterwards. |
| `VmSteps.ZeroDoes` | mm/memory.c:361-371 | The shared page of zeros is put in place, read-only. |
| `VmSteps.LoadDoes` | mm/memory.c:672-682 | The fresh page is put in place, with what belongs there. |
| `VmSteps.GiveDoes` | mm/swap.c:509-538 | A page given back has no reference left. |
| `VmSteps.StoreDoes` | mm/memory.c:548-607 | A store leaves the page dirty and accessed, with the new content. |
| `VmCow.WpOK` | mm/memory.c:613-646 | A write fault changes nobody's view, and once resolved the page may be written. |
| `VmCow.StoreOK` | mm/memory.c:548-607 | A store to a private page is seen by its owner alone. |
| `VmCow.CopyOK` | mm/memory.c:243-257 | Copying one entry gives the child the parent's view and changes no view. |
| `VmSwap.SwapOutOK` | mm/swap.c:224-261 | Swapping a page out changes no view of private memory: dirty pages are written to their slot, clean ones can be loaded again. |
| `VmSwap.EnterOK` | mm/swap.c:193-222 | Entering a page read from swap, or a fresh one, keeps the counts and the views. |
| `VmSwap.ShareOK` | mm/memory.c:698-747 | Sharing a clean page gives the task what the other reads, which is what it read itself, and changes nobody's view. |
| `VmSwap.LoadOK` | mm/memory.c:1124-1177 | A page of zeros or from the file put at an empty entry keeps the counts and changes no view. |
| `Vm.CountsBounded` | mm/swap.c:125-151 | No count exceeds the number of tasks plus the kernel's references, so the byte in swap_map and the short in mem_map cannot wrap with at most NR_TASKS tasks. |
| `VmMemory.Memory.Fork` | mm/memory.c:206-263 | copy_page_tables: succeeds exactly if pages can be had for the directory and each of the parent's page tables; then the child reads everywhere what the parent reads, and otherwise has nothing; nobody else notices, and the counts stay exact either way. |
| `VmMemory.Memory.FreePageTables` | mm/memory.c:154-183 | All entries of the task go, the counts stay exact, no other view changes. |
| `VmMemory.Memory.UnmapRange` | mm/memory.c:269-319 | Nothing is mapped in the range any more, the counts stay exact, no other view changes. |
| `VmMemory.Memory.ZeroMapRange` | mm/memory.c:321-377 | The range reads as zero as far as the page tables there are, and those that can be had, reach; the call succeeds exactly if as many pages can be had as tables are missing; the counts stay exact, no other view changes. |
| `VmMemory.ServedAll` | mm/memory.c:344-356 | All pages are reached exactly if there is a page for each missing table. |
| `SwapArea.Area.GetSwapPage` | mm/swap.c:102-123 | The first free slot, or none exactly when there is none; free slots stay within the range searched and their number known. |
| `SwapArea.Area.SwapDuplicate` | mm/swap.c:125-151 | One more user of a slot in use; refused for any other. |
| `SwapArea.Area.SwapFree` | mm/swap.c:153-191 | One user fewer; the last makes the slot free, findable and counted. |
| `SwapOn.Expand` | mm/swap.c:825-831 | Expanding the bitmap into bytes in the same page, from the end down, reads every bit before it is overwritten. |
| `SwapOn.Scan` | mm/swap.c:803-812 | The least and greatest good slot and their number. |
| `SwapOn.SwapOn` | mm/swap.c:789-835 | The area is set up exactly when the signature is there and some slot is good; then slots are free exactly if good, within the range, and counted. |
| `SwapOn.SignatureIs` | mm/swap.c:789-795 | The signature is the text SWAP-SPACE. |
| `Ext2Blocks.BmapIsPtr` | fs/ext2/inode.c:422-475 | ext2_bmap finds the pointer at the block's position in the tree. |
| `Ext2Blocks.NumberIs` | fs/ext2/inode.c:431-474 | The position of a block in plain numbers: twelve direct blocks, then a, a^2 and a^3, the digits of the rest to base a. |
| `Ext2Blocks.PathsDiffer` | fs/ext2/inode.c:431-474 | Different logical blocks have different positions. |
| `Ext2Blocks.FirstIndexInRange` | fs/ext2/inode.c:628-632 | The range check of ext2_getblk lets through one block number for which the triple indirect index is out of bounds, and only that one. |
| `Ext2Tree.GrowOK` | fs/ext2/inode.c:477-538 | A free block put at a hole keeps: tree blocks are in use, no two positions share one, i_blocks counts them. |
| `Ext2File.Inode.Allocate` | fs/ext2/inode.c:502-517 | A block whose bit was clear is marked, zeroed and put at the position; bitmap and tree agree on the blocks in use. |
| `Ext2File.Inode.InodeGetblk` | fs/ext2/inode.c:477-538 | The inode's pointer is found, or filled if asked and allowed. |
| `Ext2File.Inode.BlockGetblk` | fs/ext2/inode.c:540-614 | The same one level down. |
| `Ext2File.Inode.GetBlk` | fs/ext2/inode.c:616-673 | For every block number: a mapped block is found and nothing changes; a created one is what ext2_bmap then finds, was free in the bitmap and is zeroed; every other logical block maps as before; no two positions share a block. EIO, EFBIG and ENOSPC exactly, the last when fewer blocks can be had than pointers are missing on the way; and past the end of an indirect block exactly for number 12+a+a^2+a^3 when the triple indirect block is there or can be made. |
| `Ext2File.Inode.TruncDirect` | fs/ext2/truncate.c:33-67 | Direct blocks from the cut on are gone, the others untouched. |
| `Ext2File.Inode.TruncIndirect` | fs/ext2/truncate.c:69-137 | Below an indirect block, data blocks from the cut on are gone, the others untouched, the block itself goes if it holds nothing, and exactly what left the tree is freed. |
| `Ext2File.Inode.TruncDeeper` | fs/ext2/truncate.c:139-250 | The same for double and triple indirect blocks. |
| `Ext2File.Inode.Truncate` | fs/ext2/truncate.c:252-274 | ext2_bmap is unchanged below ceil(size/blocksize) and zero from there on; exactly the blocks that left the tree are freed in the bitmap; i_blocks still counts the blocks in the tree; size 0 leaves none. |
| `Ext2Alloc.Groups.NewBlock` | fs/ext2/balloc.c:299-507 | Refused exactly when no block is free or only the reserve is left for an ordinary user, or the goal is in no group, in which case the code goes by a descriptor that does not exist; otherwise a free block is taken, and the bitmaps and all counts follow: the goal itself if free; else the first free one of the 32 behind it; else behind it in its group, a clear byte first; else in the next group with a free block. |
| `Ext2Alloc.Groups.RoomIsLeft` | fs/ext2/balloc.c:319-323 | A block is refused exactly when no room is left for the caller. |
| `Ext2Alloc.Groups.FreeBlock` | fs/ext2/balloc.c:230-290 | The block's bit is cleared; the counts stay right exactly when the block was in use. |
| `Ext2Alloc.Near` | fs/ext2/balloc.c:363-384 | The look ahead of 32 blocks through two shifted words finds a free bit after the goal, the first one unless the goal is the last bit of its word. |
| `Ext2Alloc.MarkedUsed` | fs/ext2/balloc.c:465-507 | Setting or clearing a bit adds or removes exactly that block. |
| `Ext2Bitmaps.Cache.Load` | fs/ext2/balloc.c:155-228 | The slot returned holds the group's bitmap; with many groups the last eight used are kept, most recent first, none twice, and exactly the one dropped is released. |
| `Ext2Bitmaps.RecentListed` | fs/ext2/balloc.c:182-212 | Moving a group to the front keeps the list free of repeats. |
| `BufferSteps.StepInv` | fs/buffer.c:354-530 | Every step of getblk, brelse, grow and shrink between sleeps keeps: one buffer for a block, counts equal to the users, the list holding every buffer once, nr_buffers its length. |
| `BufferSteps.StartedInv` | fs/buffer.c:987-1001 | Without buffers the invariant holds. |
| `BufferSteps.RunInv` | fs/buffer.c:444-516 | So in every interleaving of tasks. |
| `BufferSteps.UsedStays` | fs/buffer.c:444-516 | A buffer with users is neither given to another block nor taken away by any step. |
| `BufferSteps.HeldIsBusy` | fs/buffer.c:377-390 | Who was given a buffer is such a user. |
| `BufferSteps.OneBuffer` | fs/buffer.c:354-390 | Two callers given a buffer for the same block were given the same one. |
| `BufferSteps.RunKeeps` | fs/buffer.c:913-978 | Over any run in which a buffer keeps a user it holds the same block. |
| `BufferSteps.GetsTheBlock` | fs/buffer.c:444-516 | A step of getblk gives its task nothing, or a buffer for the block asked for; `BufferDoes` says exactly which. |
| `BufferDoes.LookupDoes` | fs/buffer.c:377-390 | A block is missing exactly if no buffer has it; otherwise the task gets the buffer, with one more user, or waits until it is unlocked. |
| `BufferDoes.FoundDoes` | fs/buffer.c:382-387 | A task that waited for the buffer it found gets it. |
| `BufferDoes.ScanDoes` | fs/buffer.c:488-516 | A buffer to take over is waited for if locked, and taken exactly if it is unused, clean, of the right size, and the block is still not cached; otherwise getblk starts again. |
| `BufferDoes.WokenDoes` | fs/buffer.c:493-516 | The same after the wait. |
| `BufferDoes.ReleaseDoes` | fs/buffer.c:518-530 | brelse: one user fewer and the handle is gone, or a wait for the lock. |
| `BufferDoes.ReleasedDoes` | fs/buffer.c:518-530 | ... and so after the wait. |
| `BufferDoes.OthersDo` | fs/buffer.c:444-490 | Requests begin, begin again without a candidate, and write-out counts as a use. |
| `BufferDoes.GrowDoes` | fs/buffer.c:870-907 | Exactly these buffers are added, empty and unused, each in front of the list. |
| `BufferDoes.ShrinkDoes` | fs/buffer.c:913-942 | Exactly the buffers of the page go; the others keep their order. |
| `BufferLists.FreeList.Remove` | fs/buffer.c:290-299 | The head is unlinked and the others stay linked in their order; the list is one again if and only if another head was on it, and otherwise goes on pointing to the head removed. |
| `BufferLists.FreeList.PutLast` | fs/buffer.c:320-334 | The head goes to the end of the circle. |
| `BufferLists.FreeList.PutFirst` | fs/buffer.c:307-318 | The head goes to the front of the circle. |
| `BufferLists.Queue.Remove` | fs/buffer.c:279-288 | The head is unlinked from its hash queue. |
| `BufferLists.Queue.Insert` | fs/buffer.c:343-351 | The head comes to the front of its hash queue. |
| `BufferLists.Queue.Find` | fs/buffer.c:354-368 | The first head for the block, unless its size is another. |
| `BufferHash.StepHashed` | fs/buffer.c:495-515 | Every step leaves each buffer with a block once in the queue of that block's hash, and nothing else in a queue. |
| `BufferHash.FindsCached` | fs/buffer.c:354-368 | Walking the queue of a block's hash then finds its buffer exactly when there is one. |
| `BufferHash.RunFinds` | fs/buffer.c:354-368 | So it does from the start on, in every interleaving. |
| `FatTable.WriteEntry` | fs/msdos/fat.c:63-78 | Writing a 12- or 16-bit entry changes that entry and no other, wherever the sectors begin. |
| `FatTable.Packed` | fs/msdos/fat.c:46-62 | Two 12-bit entries are three bytes read as one number, lowest first; a 16-bit entry is two bytes. |
| `FatTable.EndMarks` | fs/msdos/fat.c:46-62 | Entries from 0xff7 (0xfff7) on are ends of file, smaller ones are what they say. |
| `FatTable.Fat.Access` | fs/msdos/fat.c:19-102 | The value read is the entry's (0 outside the clusters, -1 for an end of file); a write updates one entry, and copies that were equal stay equal. |
| `FatChain.WalkStable` | fs/msdos/misc.c:129-153 | Links put where there were none change no walk that got somewhere. |
| `FatChain.NoCorruption` | fs/msdos/fat.c:170-176 | No entry of a truthful cache disagrees about a position. |
| `FatChain.CutFiles` | fs/msdos/fat.c:274-290 | Freeing the tail of one file leaves every other file's chain as it was, and all chains well formed and disjoint. |
| `FatChain.AppendFiles` | fs/msdos/misc.c:129-156 | Linking a free cluster behind a file keeps all chains well formed and disjoint. |
| `FatVolume.Volume.CacheLookup` | fs/msdos/fat.c:121-142 | The cached position nearest before the cluster, if better than the one given. |
| `FatVolume.Volume.CacheAdd` | fs/msdos/fat.c:161-197 | On any cache: the entry comes to the front, in place of the first for that position or of the last; an entry that disagrees drops all of the inode's. |
| `FatVolume.Volume.CacheInvalInode` | fs/msdos/fat.c:203-210 | Exactly the inode's entries are dropped. |
| `FatVolume.Volume.GetCluster` | fs/msdos/fat.c:222-236 | On any table, through the cache, the cluster that walking the links from i_start finds; the "FAT cache corruption" branch is never taken and the cache stays true. |
| `FatVolume.Volume.SMap` | fs/msdos/fat.c:239-254 | The disk sector of a file's sector, or 0: the cluster found by walking the links is what the sector lies in, counting clusters from 2 at the start of the data area, at the same offset. |
| `FatVolume.DataArea` | fs/msdos/fat.c:253 | The clusters fill the data area: each of its sectors belongs to one place of one cluster. |
| `FatVolume.SectorsApart` | fs/msdos/fat.c:239-254 | No two sectors of sound files lie in the same place. |
| `FatVolume.FreeRest` | fs/msdos/fat.c:281-291 | The freeing loop ends on every table, because nonzero entries decrease; the free count stays true; a well-formed chain is zeroed exactly. |
| `FatVolume.Volume.FatFree` | fs/msdos/fat.c:260-294 | The file keeps its first `skip` clusters, the rest become free, all other files and links are untouched, a known free count grows by the number freed, and the cache stays true. |
| `FatVolume.Volume.AddCluster` | fs/msdos/misc.c:109-160 | Succeeds exactly when the inode is not the root and a cluster is free; then the first free cluster from prev_free on, all the way round, becomes the file's last, the next search starts behind it, no other link changes, and cache and count stay true. |
| `KmallocHeap.LiveApart` | lib/malloc.c:268-276 | No two live objects overlap. |
| `KmallocHeap.LiveInPage` | lib/malloc.c:239-259 | A live object lies within one page of the allocator and is as long as asked. |
| `KmallocHeap.SizesDouble` | lib/malloc.c:116-129 | The sizes of the buckets double from 16 to a page. |
| `KmallocHeap.IdleIffNoneLive` | lib/malloc.c:477-479 | refcnt is zero exactly when the page has no live object. |
| `KmallocHeap.TakeKeeps` | lib/malloc.c:268-276 | Taking the first free object keeps free list and live objects a partition of the page, with refcnt counting the live ones. |
| `KmallocSteps.OpenKeeps` | lib/malloc.c:235-266 | A page threaded and linked in keeps the invariant. |
| `KmallocSteps.GiveBackKeeps` | lib/malloc.c:474-478 | An object given back keeps the invariant. |
| `KmallocSteps.ReleaseKeeps` | lib/malloc.c:479-498 | A page without live objects can go. |
| `Kmalloc.Allocator.Start` | lib/malloc.c:189-221 | Up to the first sleep: a new object, or what is needed next for a bucket that is large enough; fails exactly when the request is larger than a page. |
| `Kmalloc.Allocator.FindSize` | lib/malloc.c:189-193 | The smallest bucket that is large enough, and none exactly when the request is larger than a page. |
| `Kmalloc.Allocator.GotDescriptors` | lib/malloc.c:143-158 | A page of descriptors adds 256 of them; none is ever lost. |
| `Kmalloc.Allocator.GotPage` | lib/malloc.c:224-276 | The new page is threaded and its first object handed out; without a page the descriptor is put back. |
| `Kmalloc.Allocator.Kmalloc` | lib/malloc.c:170-328 | NULL exactly if the object is too large, or its bucket has no free object and no page could be had, or no descriptor was free and no page for descriptors could be had; otherwise a new object, disjoint from all others, as long as asked; no live object's words change. |
| `Kmalloc.Allocator.Kfree` | lib/malloc.c:381-502 | Exactly the object goes; its page is released exactly when no other live object is in it; a foreign address changes nothing. |
| `Kmalloc.ThreadPage` | lib/malloc.c:240-259 | Each object of the page holds the address of the next, the last NULL; no other word changes. |
| `Kmalloc.WriteKeeps` | lib/malloc.c:268-276 | Whatever a caller writes into its object, no free list is damaged. |
| `Timers.DueSorted` | kernel/sched.c:264-286 | Whatever the deltas, the list is in order of expiry. |
| `Timers.AddedMeans` | kernel/sched.c:275-284 | add_timer inserts behind all that are due no later, and changes nobody's remaining time. |
| `Timers.DeletedMeans` | kernel/sched.c:297-307 | del_timer removes the timer and changes nobody else's remaining time. |
| `Timers.AddDelete` | kernel/sched.c:264-310 | Deleting a timer just added restores the list, delta for delta. |
| `Timers.RunsOnTime` | kernel/sched.c:415-424 | Over every run, a timer due in n ticks and not deleted runs in the tick after those n and in no other. |
| `Timers.AddedRunsOnTime` | kernel/sched.c:264-286 | A timer added with `expires` n runs on exactly the (n+1)th following tick. |
| `Timers.RunInOrder` | kernel/sched.c:415-422 | Over every run, timers run in the order of the list. |
| `Timers.TiesInOrder` | kernel/sched.c:276-282 | A timer is put behind exactly those that expire no later, so ties run in the order they were added. |
| `TimerLists.TimerList.AddTimer` | kernel/sched.c:264-286 | The walk along the links inserts the timer there, and the list stays linked. |
| `TimerLists.TimerList.DelTimer` | kernel/sched.c:288-310 | The walk finds the very timer, unlinks it, gives its ticks to the next one and its remaining time to the caller; or says that it is not there. |
| `TimerLists.TimerList.DoTimer` | kernel/sched.c:415-424 | Runs exactly the timers that are due, in order, and brings the others nearer by one tick; the list stays linked. |
| `Scheduler.BestIs` | kernel/sched.c:150-157 | The scan finds the first of the tasks with the largest counter among those that can run. |
| `Scheduler.ScheduledIs` | kernel/sched.c:121-164 | Idle is chosen exactly when nothing can run; a recharge happens exactly when something can run and none of it has ticks left; the choice has ticks left. |
| `Scheduler.ScheduledChooses` | kernel/sched.c:121-164 | schedule chooses, of the tasks that can run, the first with the most ticks left, or idle if there is none; ready sleepers run; counters change exactly if some task can run and none has ticks left, to half and the priority. |
| `Scheduler.EventsDo` | kernel/sched.c:181-233 | A sleeper that is woken runs, and need_resched is set exactly if it has more ticks left than the current task. |
| `Scheduler.InvKept` | kernel/sched.c:121-233 | Counters stay below twice the priority in every step. |
| `Scheduler.NoStarvation` | kernel/sched.c:150-163 | Over every run a task that can run, and is not chosen, waits at most the sum of all counters, plus one tick if idle runs, plus twice the priorities if it has no ticks left; it sees at most one recharge. |
| `Scheduler.RunsBeforeRecharge` | kernel/sched.c:150-163 | With ticks left it runs before the next recharge, within as many ticks as all counters hold. |
| `Scheduler.Kernel.Schedule` | kernel/sched.c:121-164 | The three loops make that choice and that recharge. |
| `Scheduler.Kernel.DoTimer` | kernel/sched.c:384-387 | In a sound system one tick is left less in all unless idle runs, the current task loses it and no other field of any task changes; need_resched is set exactly when none is left or idle runs; the system stays sound. |
| `PipeRing.Pipe.CopyOut` | fs/pipe.c:29-41 | Takes the first min(count, size) bytes out of the ring. |
| `PipeRing.Pipe.CopyIn` | fs/pipe.c:76-88 | Appends as many bytes as there is room for, up to PAGE_SIZE - 1 in all. |
| `PipeRing.Pipe.Read` | fs/pipe.c:16-48 | One round of pipe_read on the ring is one on the sequence of bytes in it. |
| `PipeRing.Pipe.Write` | fs/pipe.c:50-93 | So is one round of pipe_write. |
| `PipeRing.Pipe.Release` | fs/pipe.c:197-216 | The open ends are counted; the bytes stay. |
| `PipeRuns.RunInv` | fs/pipe.c:16-93 | Over every interleaving, what was read and what is in the pipe is what was written. |
| `PipeRuns.InOrder` | fs/pipe.c:29-41 | The bytes read are a prefix of the bytes written, in order; at most PAGE_SIZE - 1 are in the pipe; a call that wrote n bytes wrote the first n of its data. |
| `PipeRuns.Atomic` | fs/pipe.c:58-91 | A write shorter than PAGE_SIZE wrote nothing, or all of it in one piece between what other calls wrote (section 6.4.2 of POSIX.1-1990). |
| `PipeRuns.EndOfFile` | fs/pipe.c:20-47 | Once a read of at least one byte returned 0, everything ever sent has been received and no write end is open. |
| `PipeRuns.ReadReturns` | fs/pipe.c:16-48 | For every count, exactly when a round of pipe_read returns 0, -EAGAIN, -ERESTARTSYS or bytes, and when it sleeps: on a pipe that is not empty -EAGAIN exactly when the count is 0 and there are writers. |
| `PipeRuns.WriteReturns` | fs/pipe.c:63-92 | Exactly when a round of pipe_write copies, and how much, waits, or ends with -EPIPE, -ERESTARTSYS, -EAGAIN or what was written. |
| `PipeRuns.FirstRound` | fs/pipe.c:58-66 | A write of less than a page goes in at once exactly if all of it fits; a longer one if one byte does. |
| `PipeRuns.ZeroRead` | fs/pipe.c:16-48 | A blocking read of no bytes from a pipe with a byte and a writer returns -EAGAIN. |
| `PipeRuns.ReadsPiece` | fs/pipe.c:29-41 | The bytes a finished read got are one piece of the bytes received, which stand there in the order in which reads ended. |

## Left out

- Drivers, interrupts, boot code, networking, system call plumbing, and the `fs/minix` and `fs/ext` trees, which repeat ext2's: not modelled.
- zBoot: the gzip header and trailer, and the refilling of the input buffer: the input is one sequence.
- Inflate.Inflate: what the decoder makes of bits that are no symbol's code in an accepted tree that leaves codes over and symbols out; the code then goes by a part of the symbol list that was never written (`Deflate` calls these outcomes `Odd`).
- InflateDynamic.MakeTree: asks for root bits that reach half the longest code, or fewer symbols than 2^m, which is so in all of inflate's calls.
- Window.Window.Copy: takes a length of at least 1 and a distance of at most the window size, which is all that the format can express.
- LockIt.Apply: of a request granted on a list that an earlier clash left ill formed, what it means in bytes is bounded (`Within`) and not exact; `LockTrace.Applied` says which list it leaves.
- Locks: fcntl_getlk, the sleep of F_SETLKW and deadlock between waiters.
- Virtual memory: clone_page_tables, shared memory segments, pages mapped shared or read-only from files, swapoff, mappings made when memory is exhausted, pages at or above high_memory, the choice of pages to swap out, the page allocator's free lists, and the refusal of unaligned ranges and masks.
- VmMemory.Memory.Fork: page tables are counted, not modelled as pages, and none is reserved.
- SwapArea.Area.SwapDuplicate: counts are unbounded here; `Vm.CountsBounded` bounds them. One area stands for all, and the slot locks are left out.
- SwapOn.SwapOn: from the header page on; the look-up of the device and the privilege check are left out.
- ext2: I/O errors, buffers shared with other users during truncation (`b_count` other than 1), the choice of allocation goals (any goal is allowed) and inode allocation.
- Ext2File.Inode.GetBlk: for block number 12+a+a^2+a^3, only that the code goes past the end of an indirect block, not what it finds there.
- Ext2File.Inode.Allocate: takes its goal in some group; for one in none, `Ext2Alloc.Groups.NewBlock` says that the code reads a descriptor that does not exist.
- Ext2Bitmaps.Cache.Load: a buffer is known only by the group it was read for; I/O errors and the panic for a group that does not exist are left out.
- Buffer cache: set_blocksize, bread_page, sharing of pages with user memory, block sizes other than one for each device, the order in which getblk weighs its candidates (any candidate the code could choose is allowed), and the write-back of dirty buffers. `BufferHash` keeps its queues as sequences; their links are those of `BufferLists.Queue`.
- BufferSteps.StepInv: taking over the only buffer of the list, after which the list is none (`BufferLists.FreeList.Remove`), is not a step.
- FAT: I/O errors, i_blocks, the zeroing of new clusters, the lock on the table while another task runs, cache_inval_dev, and that the second sector of an entry in the further copies is not marked dirty.
- FatVolume.Volume.FatFree: for volumes whose chains are well formed and disjoint; `FatVolume.FreeRest` covers every table.
- FatVolume.Volume.AddCluster: for volumes whose chains are well formed and disjoint; on a chain that runs in a circle the code does not end.
- Kmalloc.Allocator.Kfree: of a live object with a size of at most its length (or 0), or of an address in none of the allocator's pages; freeing twice is not covered. A descriptor is known by its page while in use, and free descriptors are counted, not linked.
- Timers: timer_table, interval timers, callbacks that add timers, and wrap-around of the tick count.
- TimerLists.TimerList.AddTimer: the timer is not in the list already, which would tie the list into a knot.
- Scheduler: fork, changes of priority, task exit and signals that start a stopped task; schedule is taken to run before the next tick when need_resched is set.
- Pipes: a page fault while bytes are copied, named pipes that wait for a connection, select and ioctl. A round of a long write may be followed by other calls' rounds, which allows more interleavings than the code has.
