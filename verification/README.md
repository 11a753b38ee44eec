# xv6 with copy-on-write fork: models and proofs

A Dafny model of the parts of this repository whose correctness is hard to see:
the kernel's write-ahead log and buffer cache, copy-on-write memory, the file
layer, processes, pipes and the disk driver; the user-level allocator, shell
parser and pattern matcher; and the two pthread programs.  `dafny verify
dfyconfig.toml` checks all of it.

What updates state in place is a class whose methods are the source's critical
sections and loops, each proved against a specification on plain values.  What
runs concurrently is a machine of small steps, and its properties hold over
every run.  A region under one spinlock is one step, except where the property
is about the locks themselves (sleep and wakeup) or about what happens between
two such regions (the reference count of a page).  A `panic` is an outcome, and
where the source relies on it, shown to be out of reach.

| files | what they model |
|---|---|
| `BufferCache`, `CrashRecovery`, `LogSpace`, `Log`, `Transactions` | the buffer cache, the log as a sequence of single-block writes that may stop anywhere, the space test of `begin_op`, and whole runs of concurrent operations, commits, crashes and restarts |
| `CowState`, `CopyOnWrite`, `PageRace`, `PageTable` | physical pages and address spaces, the operations on them against a machine that copies at fork, the interleaved reference count of one page, the three-level tree of Sv39 |
| `BlockBytes`, `FileState`, `FileSystem`, `FileRuns` | the free map, block numbers, files as byte sequences, and whole runs on a volume |
| `Malloc` | the free list of the C library allocator |
| `StableSort`, `MergeSort`, `CountingSort` | the two parallel sorts |
| `LazyFiles` | the file-access manager |
| `SleepWakeup`, `ProcTable` | sleep and wakeup, fork, exit and wait |
| `VirtioDisk`, `Pipe` | descriptor and ring book-keeping, the pipe |
| `ShellTokens`, `ShellGrammar`, `ShellParser`, `Regex` | tokens, the command grammar, its parser, patterns |
| `Common` | types that several models use |

The results to look at first: `Transactions.System.Run` and
`Transactions.Lives` with `CrashRecovery.CrashAtomicity`,
`CopyOnWrite.Kernel.Run`, `PageRace.RaceSafe` with `PageRace.OverlapLeaks`,
`PageTable.Pager.Teardown`, `FileRuns.Run` with
`FileSystem.Volume.Filewrite` and `Itrunc`, `ProcTable.Table.Run`,
`Malloc.Allocator.Malloc`, `CountingSort.SortFiles`,
`LogSpace.SafeBudget`, `VirtioDisk.Driver.Reap` and
`ShellParser.ParseCmd` with `ShellGrammar.ParsesGrammar`.

Where the code does not do what one might expect, the model follows the code:

- Two overlapping `kfree` calls on a page can both find its count above one and
  both only decrement it; the page is then lost (`PageRace.OverlapLeaks`).
  Without overlap it is never lost.
- `uvmunmap` gives a page to `kfree` before it clears the entry, so between the
  two a page on the free list, or in the hands of its next owner, still has a
  valid entry (`PageRace.StaleEntries`); `PageRace.RaceSafe` says that it has no
  other.  `CopyOnWrite` takes the two as one step.
- With `nlog` equal to `LOGSIZE` the log holds one block less than `begin_op`
  reckons, so three operations that use their full `MAXOPBLOCKS` reach the
  panic (`LogSpace.ThreeOpsRun`); with one block less each none ever does.
- `mkfs` rounds the size of the root directory up past its last block when it
  ends on a block boundary (`FileSystem.RootHasHole`); a read that meets such a
  byte allocates and logs, in or out of a transaction
  (`FileSystem.Volume.Readi` says exactly when).  The other file results take an
  image in which every byte of a file has a block.
- A writer that is killed between two bytes leaves `pipewrite` without waking
  readers; one asleep then stays so over unread bytes until the next write or
  close (`Pipe.Buffer.Write` says exactly when, `Pipe.ReaderLeftAsleep` is a
  case).  A byte that `piperead` cannot copy out is gone from the pipe
  (`Pipe.Buffer.Read`).
- `>>` opens its file without truncating it but not for appending; the parser
  model records the mode the source passes.

## Model

| member | source | states |
|---|---|---|
| `BufferCache.LinkAll` | initial-xv6/src/kernel/bio.c:43-52 | the linking loop ends with a ring whose next and prev links are inverse to each other and list all buffers, the last one first |
| `BufferCache.Cache.constructor` | initial-xv6/src/kernel/bio.c:36-53 | the empty cache satisfies every invariant: one well-linked ring over all buffers, no block cached twice, unreferenced buffers equal to the disk |
| `BufferCache.Cache.Find` | initial-xv6/src/kernel/bio.c:66-73 | walking the links from the head finds the buffer of a block if there is one, and ends at the head otherwise |
| `BufferCache.Cache.FindVictim` | initial-xv6/src/kernel/bio.c:77-87 | walking the links backwards finds the unreferenced buffer released longest ago; none only when all are referenced |
| `BufferCache.Cache.Get` | initial-xv6/src/kernel/bio.c:58-89 | bget returns the one buffer of the block, recycling an unreferenced, least recently released one if need be; a referenced or pinned buffer keeps its block; no reader of any block sees a change; it panics exactly when the block is not cached and every buffer is referenced |
| `BufferCache.Cache.Recycle` | initial-xv6/src/kernel/bio.c:78-85 | giving an unreferenced buffer to another block loses nothing: every block reads as before, and still at most one buffer holds a block |
| `BufferCache.Cache.Read` | initial-xv6/src/kernel/bio.c:92-103 | bread hands out what the block reads as, cached or not, locked; contents of referenced buffers and what any block reads as stay |
| `BufferCache.Cache.Write` | initial-xv6/src/kernel/bio.c:106-112 | bwrite of a locked buffer is one disk step that makes the disk agree with the buffer and changes what no block reads as; it panics exactly on an unlocked buffer |
| `BufferCache.Cache.MoveToFront` | initial-xv6/src/kernel/bio.c:126-133 | the six link assignments leave a well-linked ring, the same one with the buffer first, and the ring stays in order of last release |
| `BufferCache.Cache.Drop` | initial-xv6/src/kernel/bio.c:124-136 | gives up one reference; at zero, and only then, the buffer comes to the front of the ring and counts as released now; every invariant holds again |
| `BufferCache.Cache.Release` | initial-xv6/src/kernel/bio.c:116-137 | brelse keeps every invariant, and moves the buffer to the front exactly when it was the last reference |
| `BufferCache.Cache.Pin` | initial-xv6/src/kernel/bio.c:139-144 | a pin is a reference: the buffer will not be recycled; the invariants hold |
| `BufferCache.Cache.Unpin` | initial-xv6/src/kernel/bio.c:146-151 | takes one pin back and keeps the invariants |
| `BufferCache.FrontedLinks` | initial-xv6/src/kernel/bio.c:126-133 | for every ring and buffer: exactly the link updates of brelse take a well-linked ring to the ring with that buffer in front |
| `BufferCache.FrontedRecent` | initial-xv6/src/kernel/bio.c:124-134 | moving a buffer released now to the front keeps the ring ordered by last release |
| `BufferCache.SeenRecycled` | initial-xv6/src/kernel/bio.c:77-85 | recycling a clean buffer changes what no block reads as |
| `BufferCache.Cache.CopyBlock` | initial-xv6/src/kernel/log.c:183-190 | two breads, a copy, a bwrite and two releases: one disk step, which gives the destination what the source reads as; it succeeds whenever two buffers can be had |
| `BufferCache.Cache.InstallPinned` | initial-xv6/src/kernel/log.c:73-82 | the same from the log to a pinned home block, which loses one pin |
| `CrashRecovery.RecoveryRestarts` | initial-xv6/src/kernel/log.c:68-123 | after any number of its writes recovery may be cut off: recovering what it left gives the same disk as recovering the original |
| `CrashRecovery.RecoveryIdempotent` | initial-xv6/src/kernel/log.c:116-123 | a finished recovery leaves an empty log, and recovering again changes nothing |
| `CrashRecovery.CrashRunRecovers` | initial-xv6/src/kernel/log.c:116-123 | through any number of crashes inside recovery, the recovery that completes leaves the same disk |
| `CrashRecovery.CommittedRecovers` | initial-xv6/src/kernel/log.c:102-114 | once the header is on disk, recovery installs every block of the transaction as logged, and nothing else outside the log changes |
| `CrashRecovery.CommitTailIsRecovery` | initial-xv6/src/kernel/log.c:193-203 | what commit writes after the header is, write by write, what recovery would |
| `CrashRecovery.CommitIsAtomic` | initial-xv6/src/kernel/log.c:178-203 | a commit cut after any k of its block writes recovers to all home blocks as before (k up to the number of blocks) or all as logged (after it), never a mix |
| `CrashRecovery.CrashAtomicity` | initial-xv6/src/kernel/log.c:193-203 | the same with any number of further crashes during recovery, and the result is stable under recovery |
| `CrashRecovery.CommitCompletes` | initial-xv6/src/kernel/log.c:193-203 | a commit that is not cut off leaves the whole transaction and an empty log |
| `Log.FillHeader` | initial-xv6/src/kernel/log.c:106-111 | the loop of write_head stores the count and all block numbers, and nothing else of the header block |
| `Log.TakeHeader` | initial-xv6/src/kernel/log.c:90-95 | the loop of read_head takes back exactly the block numbers the header block holds |
| `Log.Log.LogOne` | initial-xv6/src/kernel/log.c:183-190 | the log slot gets what the cache shows for the logged block, while other processes hold other blocks; pinned copies, held buffers and what every other block reads as stay; it fails when bget finds no buffer for the slot |
| `Log.Log.WriteLog` | initial-xv6/src/kernel/log.c:178-191 | the disk goes through the first n images of the commit; each logged block's last contents reach its slot; it stops short only for want of a buffer |
| `Log.Log.WriteHead` | initial-xv6/src/kernel/log.c:102-114 | one block write that makes the header on disk list the logged blocks; what every other block reads as, and the buffers that are held, stay |
| `Log.Log.InstallTrans` | initial-xv6/src/kernel/log.c:68-83 | the disk goes through the images of recovery, from a written header to every home block in place |
| `Log.Log.Publish` | initial-xv6/src/kernel/log.c:197-198 | from open transaction to commit point: every image the disk goes through is one of the commit's first n + 1 |
| `Log.Log.Finish` | initial-xv6/src/kernel/log.c:199-201 | from commit point to empty log, through the images of recovery, unpinning each block |
| `Log.Log.Commit` | initial-xv6/src/kernel/log.c:193-203 | every disk image between is one that CommitIsAtomic speaks of; at the end the files hold what the cache showed for the logged blocks, and the log is empty, pins gone; Transactions.System.CommitAll reaches it from every run, CommitMore takes it step by step among readers |
| `Log.Log.ReadHead` | initial-xv6/src/kernel/log.c:86-97 | from a cold cache, the in-memory header becomes what the disk lists |
| `Log.Log.RecoverFromLog` | initial-xv6/src/kernel/log.c:116-123 | from a cold cache over any recoverable disk, the disk becomes the recovered one, through the images that RecoveryRestarts speaks of |
| `Log.Log.RecoverUntil` | initial-xv6/src/kernel/log.c:116-123 | the same with the power gone after any number of block writes: the disk is exactly what recovery has by then |
| `Log.Log.PendingIsPinned` | initial-xv6/src/kernel/log.c:225-233 | what a commit would write for a logged block is what its pinned buffer holds; that this is what was logged last is Transactions.System.PendingIsLogged |
| `Log.Log.LogWrite` | initial-xv6/src/kernel/log.c:214-235 | a block logged before is absorbed, a new one is appended and pinned; the two panics exactly under their tests; Transactions.System.LogWrite keeps the contents till the commit |
| `LogSpace.StepKeepsInv` | initial-xv6/src/kernel/log.c:126-235 | every begin_op, log_write, end_op and commit keeps: blocks in the log and still allowed fit, and no operation is outstanding while committing |
| `LogSpace.LogStaysSmall` | initial-xv6/src/kernel/log.c:126-235 | over every interleaving in which an operation adds fewer than MAXOPBLOCKS new blocks, the log never has more than 28 |
| `LogSpace.SafeBudget` | initial-xv6/src/kernel/log.c:219-221 | the panic for too big a transaction is out of reach in every run if and only if operations add fewer than MAXOPBLOCKS blocks each |
| `LogSpace.ThreeOpsRun` | initial-xv6/src/mkfs/mkfs.c:25 | with MAXOPBLOCKS blocks each, three admitted operations do reach the panic |
| `Transactions.CrashNow` | initial-xv6/src/kernel/log.c:178-203 | wherever a commit under way has got to, recovery gives the files of exactly the transactions whose header was written |
| `Transactions.System.constructor` | initial-xv6/src/kernel/log.c:53-65 | an empty log and an unreferenced cache start a run |
| `Transactions.System.BeginOp` | initial-xv6/src/kernel/log.c:126-142 | sleeps exactly while the log has no room for MAXOPBLOCKS more per operation or a commit runs, and then changes nothing; whoever is admitted keeps the invariant of every run, with the admission counters those of LogSpace |
| `Transactions.System.Crowded` | initial-xv6/src/kernel/bio.c:77-88 | in every run bget can recycle a buffer if and only if there are more buffers than blocks held or logged and not yet installed |
| `Transactions.System.Bread` | initial-xv6/src/kernel/bio.c:92-103 | a reader, inside an operation or not and also while a commit runs, gets the block's last stored, last logged or committed contents; bget panics exactly when as many blocks are in use as there are buffers, and this is none of them; nothing but the holder changes |
| `Transactions.System.Store` | initial-xv6/src/kernel/fs.c:75-77 | a change to a held block is what every later reader sees, and nothing of it can reach the disk before it is logged |
| `Transactions.System.LogWrite` | initial-xv6/src/kernel/log.c:214-235 | in every run an operation within its budget meets neither panic of log_write, and the block's contents are recorded as the last logged ones |
| `Transactions.System.Brelse` | initial-xv6/src/kernel/bio.c:116-138 | a released buffer that may be recycled agrees with the disk: what is logged and not yet installed is pinned |
| `Transactions.System.EndOp` | initial-xv6/src/kernel/log.c:146-176 | the operation that ends last, and no other, starts the commit; the panic log.committing is out of reach |
| `Transactions.System.PendingIsLogged` | initial-xv6/src/kernel/log.c:178-191 | in every run, what write_log copies for each block is what was logged last for it |
| `Transactions.System.CommitMore` | initial-xv6/src/kernel/log.c:166-203 | each step of the commit is the one block write due, of the contents logged last, or it waits for a reader of that block, or panics exactly for want of a buffer; every reader's view and the promise of Safe are kept; the header write adds the transaction to those committed |
| `Transactions.System.CommitAll` | initial-xv6/src/kernel/log.c:193-203 | commit in one go from any state of any run in which no block is held: it never lacks a buffer, the disk is the last image of the commit, and the transaction of the last logged contents is committed |
| `Transactions.System.Step` | initial-xv6/src/kernel/log.c:126-235 | each event is taken, waits, does not apply or panics exactly as Fate says; from one moment to the next disk, log, counters, books and commits are exactly what Passes says; after it a crash leaves exactly the transactions committed |
| `Transactions.System.Run` | initial-xv6/src/kernel/log.c:126-235 | over every sequence of begin_op, bread, stores, log_write, brelse, end_op and single commit writes by any processes: the run is one of the machine of Passes, moment by moment, and at every moment crash and recovery give the files of exactly the transactions committed by then, each with its last logged contents; it stops early exactly in bget's panic, and only with all but 28 buffers held |
| `Transactions.Boot` | initial-xv6/src/kernel/log.c:53-65 | from any disk a crash can leave, a cold start recovers the log and meets the invariant of Run |
| `Transactions.BootUntil` | initial-xv6/src/kernel/log.c:53-65 | a boot that loses power inside its recovery leaves the disk of that many block writes of the recovery |
| `Transactions.CutAll` | initial-xv6/src/kernel/log.c:116-123 | one boot after the other that loses power inside its recovery, each going on from the disk the last one left; Cut, which it computes, recovers to the same image |
| `Transactions.Live` | initial-xv6/src/kernel/log.c:53-235 | one life: cut recoveries, a boot that completes, and the script, each event as Passes says, to its end or to bget's panic; at each of its moments crash and recovery give the files it found with its own transactions |
| `Transactions.Lives` | initial-xv6/src/kernel/log.c:53-235 | boot, run, crash at any point, inside a run or inside a recovery, and again, any number of times: each life starts from what recovery makes of the disk the one before it left, with nothing committed, and follows its script as Passes says; at every moment of every life, and after every cut recovery, the files are those of all transactions committed until then in any life, in order |
| `Regex.MatchHere` | initial-xv6/src/user/grep.c:84-95 | true exactly when some prefix of the text is in the language of the pattern's items (all of it under a final $); the mutual recursion terminates |
| `Regex.MatchStar` | initial-xv6/src/user/grep.c:98-105 | true exactly when the text is some number of accepted characters followed by a match of the rest |
| `Regex.Match` | initial-xv6/src/user/grep.c:71-81 | true exactly when the text splits as u v w with v in the language of the items, u empty under ^, w empty under $ |
| `Regex.StarHere` | initial-xv6/src/user/grep.c:98-105 | a starred item followed by the rest matches here exactly when for some number of repetitions the rest matches after them |
| `CowState.CountIsLeaves` | initial-xv6/src/kernel/kalloc.c:32-70 | in every reachable state a data page's count is the number of user leaf entries that map it |
| `CowState.WritableIsAlone` | initial-xv6/src/kernel/vm.c:302-348 | in every reachable state a leaf with W set maps a page that nobody else maps |
| `CowState.PagesPartition` | initial-xv6/src/kernel/kalloc.c:96-139 | in every reachable state each page is on the free list exactly once, or a table at exactly one place, or data that is mapped, or held by the running kernel path; never two of them |
| `CowState.NoneLost` | initial-xv6/src/kernel/kalloc.c:96-139 | when no kernel path is holding a page, every page is on the free list exactly if nobody maps it and it is no table: none is lost |
| `CowState.SameCount` | initial-xv6/src/kernel/vm.c:386-399 | if everything stays mapped where it was but a range mapped neither before nor after, every page keeps its mappers and its count |
| `CopyOnWrite.Kernel.constructor` | initial-xv6/src/kernel/kalloc.c:73-90 | freerange puts every page on the free list once; the invariants hold |
| `CopyOnWrite.Kernel.Kalloc` | initial-xv6/src/kernel/kalloc.c:123-139 | takes the head of the free list, if there is one; no process sees a change |
| `CopyOnWrite.Kernel.Kfree` | initial-xv6/src/kernel/kalloc.c:96-118 | above one the count goes down and nothing else changes; otherwise the page goes on the free list, filled with junk |
| `CopyOnWrite.Kernel.MapPages` | initial-xv6/src/kernel/vm.c:142-165 | table pages made on the way change what no process sees; it runs out of memory exactly when fewer pages are free than tables are missing, and takes exactly those; an existing leaf is reported |
| `CopyOnWrite.Kernel.Unmap` | initial-xv6/src/kernel/vm.c:170-192 | the page disappears from this process's view alone; a page whose last leaf goes is back on the free list |
| `CopyOnWrite.Kernel.Cowalloc` | initial-xv6/src/kernel/vm.c:302-348 | no process sees any difference; afterwards the leaf is writable; refused exactly when the process may not write there; out of memory exactly when the page is shared and none is free, and then nothing changes; the mappages failure branch is out of reach |
| `CopyOnWrite.Kernel.SharePage` | initial-xv6/src/kernel/vm.c:364-393 | sharing one page gives the child the same bytes and the same right to write, and the parent sees no difference |
| `CopyOnWrite.Kernel.Uvmcopy` | initial-xv6/src/kernel/vm.c:356-400 | the child sees a copy of every page, exactly when there are free pages for the tables it lacks; otherwise every view is as before, the child has no leaf, and every page has the same mappers and the same count as before |
| `CopyOnWrite.Kernel.AllocProc` | initial-xv6/src/kernel/proc.c:130-214 | the trapframe, the root and the two tables over the trampoline and trapframe, exactly when four pages are free; otherwise no page is left over and no process sees a change |
| `CopyOnWrite.Kernel.Fork` | initial-xv6/src/kernel/proc.c:287-335 | the child's memory is the parent's exactly when as many pages are free as its trapframe, its root and the tables over its own memory and the trampoline take; otherwise every view, every mapping and every count is as before and no page is left over |
| `CopyOnWrite.Kernel.FreeTables` | initial-xv6/src/kernel/vm.c:271-297 | every table page of the process is freed; the panic for a remaining leaf exactly when there is one |
| `CopyOnWrite.Kernel.Exit` | initial-xv6/src/kernel/vm.c:291-297 | the process's view goes, all others stay; its table and last-mapped pages are free again |
| `CopyOnWrite.Kernel.Uvmalloc` | initial-xv6/src/kernel/vm.c:225-249 | all new pages, zeroed and writable, exactly when there are free pages for them and for the missing tables; otherwise every view, mapping and count is as before and no page is left over |
| `CopyOnWrite.Kernel.Uvmdealloc` | initial-xv6/src/kernel/vm.c:255-267 | exactly the pages past the new size go |
| `CopyOnWrite.Kernel.Growproc` | initial-xv6/src/kernel/proc.c:264-283 | the process's image grows by zeroes or shrinks as sbrk says, with the 64-bit wrap of the size; it fails exactly when it grows and the free pages do not suffice, and then all is as before |
| `CopyOnWrite.Kernel.Store` | initial-xv6/src/kernel/trap.c:74-84 | a user store, faulting or not, changes that byte of that process and nothing else anyone sees; refused exactly when the process may not write there, out of memory exactly when the page is shared and none is free |
| `CopyOnWrite.Kernel.Copyout` | initial-xv6/src/kernel/vm.c:422-444 | the first `done` bytes are in the process's memory and nobody else's; it stops exactly at a page the process may not write, or that is shared when no page is free |
| `CopyOnWrite.Kernel.Copyin` | initial-xv6/src/kernel/vm.c:450-470 | returns the bytes the process sees, or fails because some byte is not readable |
| `CopyOnWrite.Kernel.Run` | initial-xv6/src/kernel/vm.c:302-400 | for every script of forks, exits, sbrks, stores and copyouts by any processes: what each process sees and may write is what it would see had every fork copied all pages at once; a fork or sbrk fails exactly in a state with too few free pages, a store or copyout exactly where the process may not write or must copy with no page free; and when none was held at the start, no page is lost: what is neither mapped nor a process's table or trapframe is on the free list |
| `CopyOnWrite.TablesFor` | initial-xv6/src/kernel/vm.c:85-103 | a process of n pages takes one bottom table for every 512 pages begun and one middle table for every 512 * 512, and no more |
| `PageRace.StepKeeps` | initial-xv6/src/kernel/kalloc.c:96-118 | each interleaved step of fork, kfree, the clearing of an entry and cowalloc on one page keeps the invariant |
| `PageRace.RaceSafe` | initial-xv6/src/kernel/vm.c:186-190 | for every interleaving with kfree's test, its decrement or free, and the store that clears the entry as separate steps: a page is on the free list at most once, and then all its entries are past their kfree and waiting to be cleared; beside a writable entry in use every other entry is so too |
| `PageRace.StaleEntries` | initial-xv6/src/kernel/vm.c:186-190 | the entries waiting to be cleared cannot be left out: a run in which a listed page has a valid entry, and then a page has two writable ones |
| `PageRace.SerialNeverLeaks` | initial-xv6/src/kernel/kalloc.c:96-118 | when the kfrees of a page do not overlap, a page whose last mapping goes is back on the free list |
| `PageRace.LostExactlyWhen` | initial-xv6/src/kernel/kalloc.c:104-107 | in every interleaving a page comes to be neither mapped nor free exactly by a decrement that finds the count at one |
| `PageRace.LostForGood` | initial-xv6/src/kernel/kalloc.c:104-107 | and then the page stays lost, whatever happens |
| `PageRace.OverlapLeaks` | initial-xv6/src/kernel/kalloc.c:104-107 | when two overlap, it need not be: a run after which nobody maps the page and it is not on the free list |
| `PageTable.PteRoundTrip` | initial-xv6/src/kernel/riscv.h:351-357 | an address survives the way through an entry, whatever the flags, and so do the flags |
| `PageTable.PxIndex` | initial-xv6/src/kernel/riscv.h:360-362 | the three indices of an address are the base-512 digits of its page number |
| `PageTable.IndicesInjective` | initial-xv6/src/kernel/riscv.h:360-368 | below MAXVA two addresses with the same three indices are on the same page |
| `PageTable.HangMidTree` | initial-xv6/src/kernel/vm.c:91-101 | hanging an empty table in the root changes no page's entry and keeps the tree a tree |
| `PageTable.HangLowTree` | initial-xv6/src/kernel/vm.c:91-101 | the same one level down |
| `PageTable.PutLookup` | initial-xv6/src/kernel/vm.c:158 | writing an entry changes the flat map at that page and nowhere else |
| `PageTable.Pager.Walk` | initial-xv6/src/kernel/vm.c:85-103 | finds the slot of the page's entry if its tables exist; with alloc it makes the missing ones out of free pages, changing no entry of the flat map and no other memory, and fails only when no page is free |
| `PageTable.Pager.MapPages` | initial-xv6/src/kernel/vm.c:142-165 | the flat map gets exactly the new entries, up to where it stopped and why; no other page's entry changes, no page is lost, and with R, W or X in the mode all entries stay leaves |
| `PageTable.Pager.Unmap` | initial-xv6/src/kernel/vm.c:170-192 | exactly the entries of the range go; tables stay; the panics exactly at a page not mapped or not a leaf |
| `PageTable.Pager.Remapped` | initial-xv6/src/kernel/vm.c:333-340 | a page just unmapped is mapped again without a new table page, so that step cannot fail |
| `PageTable.Pager.FreeWalk` | initial-xv6/src/kernel/vm.c:271-287 | below any table of a proper tree every table page is freed exactly once, and the panic comes exactly when a leaf is left; the recursion ends because the level goes down |
| `PageTable.Pager.Teardown` | initial-xv6/src/kernel/vm.c:291-297 | for every tree that uvmcreate, walk, mappages and uvmunmap can build: freewalk from the root panics exactly when some page is still mapped, and otherwise the free list has every page it ever had, each once |
| `PageTable.BareIsEmpty` | initial-xv6/src/kernel/vm.c:271-287 | freewalk's panic is out of reach if and only if the flat map is empty |
| `PageTable.TreeProper` | initial-xv6/src/kernel/vm.c:271-287 | what freewalk reaches from the root is every table page of the tree, none twice |
| `BlockBytes.BitAfter` | initial-xv6/src/kernel/fs.c:75-77 | setting or clearing a bit of the free map changes that bit of that byte only |
| `BlockBytes.U32RoundTrip` | initial-xv6/src/kernel/fs.c:407-413 | a block number stored in an indirect block reads back, and the other entries are untouched |
| `FileState.NoSharing` | initial-xv6/src/kernel/fs.c:382-421 | no block is reachable from two places, and every reachable block is a data block; FileRuns.Run has it at every moment |
| `FileState.MapIsExact` | initial-xv6/src/kernel/fs.c:65-105 | the free map marks exactly the metadata and the blocks reachable from inodes; FileRuns.Run has it at every moment |
| `FileSystem.Volume.constructor` | initial-xv6/src/kernel/fs.c:41-47 | any image with one place for every block satisfies the invariant of the operations |
| `FileSystem.Volume.Balloc` | initial-xv6/src/kernel/fs.c:65-88 | the lowest free block, marked and zeroed, with no file and no block number disturbed; 0 exactly when none is free |
| `FileSystem.Volume.Bfree` | initial-xv6/src/kernel/fs.c:91-105 | the bit of a block taken from its slot is cleared, everything else stands; the panic is out of reach |
| `FileSystem.Volume.Bmap` | initial-xv6/src/kernel/fs.c:382-421 | the block of the file's block bn, direct or indirect, allocated and zero when there was none; every other block number and every file's bytes stay; nothing at all changes when it was there; 0 and nothing logged exactly on a full disk, otherwise an allocation logs the free map |
| `FileSystem.Volume.Itrunc` | initial-xv6/src/kernel/fs.c:425-453 | every block of the inode is freed once, without panic; the file is empty; all other files, block numbers and blocks are as before |
| `FileSystem.Volume.Readi` | initial-xv6/src/kernel/fs.c:471-496 | where every byte of a file has a block, the slice of the file's bytes, with the 32-bit overflow test, and nothing is allocated or logged; on any volume a read that starts with nothing logged logs exactly when some byte of its range has no block and the disk is not full |
| `FileSystem.Volume.WriteChunk` | initial-xv6/src/kernel/fs.c:516-529 | one block's worth spliced into the file, across direct and indirect blocks, and no other file changes |
| `FileSystem.Volume.Writei` | initial-xv6/src/kernel/fs.c:505-539 | the file becomes the old one with the bytes spliced in at off, all of them unless the disk is full; refused exactly when off is past the end or the file would be too long; every block it changes is logged, the inode's among them, and how many those are is bounded |
| `FileSystem.Volume.Transaction` | initial-xv6/src/kernel/file.c:160-166 | one transaction of filewrite: refused exactly when writei refuses, short only on a full disk; every block it changes is logged, and on a volume with one block of free map these are fewer than MAXOPBLOCKS |
| `FileSystem.Volume.Filewrite` | initial-xv6/src/kernel/file.c:148-175 | exactly as many transactions as the data has chunks, or up to the one that stops it; after each of them the file has that many chunks spliced in, all changed blocks are logged, and on a volume with one block of free map they are fewer than MAXOPBLOCKS, which is what LogSpace.SafeBudget asks; it stops short only on a full disk, past the end of the file, or for a file that would be too long |
| `FileSystem.ChunkFits` | initial-xv6/src/kernel/file.c:155 | the chunk size of filewrite keeps a transaction under MAXOPBLOCKS for every offset |
| `FileSystem.RootHasHole` | initial-xv6/src/mkfs/mkfs.c:163-168 | of the size mkfs gives the root directory some byte has no block if and only if the directory ends on a block boundary |
| `FileRuns.Do` | initial-xv6/src/kernel/file.c:148-180 | a read, write or truncation by inode number does to the volume what it does to a map of byte sequences, and returns what that map says |
| `FileRuns.Run` | initial-xv6/src/kernel/fs.c:382-539 | over every sequence of reads, writes and truncations of any files: each read gives the bytes that the writes and truncations before it left, and at every moment no block has two places and the free map marks exactly the metadata and the blocks that have one |
| `Malloc.FreedHeap` | initial-xv6/src/user/umalloc.c:24-44 | for every heap and every block in use: putting it back, joined with the neighbours it touches, leaves one ascending cycle of disjoint blocks no two of which touch, all other blocks in use untouched, and all units accounted for |
| `Malloc.TakenHeap` | initial-xv6/src/user/umalloc.c:76-77 | taking a block that fits exactly keeps all of that |
| `Malloc.SplitHeap` | initial-xv6/src/user/umalloc.c:78-82 | taking the tail of a bigger block keeps all of that |
| `Malloc.GrantHeap` | initial-xv6/src/user/umalloc.c:54-59 | a region from sbrk above everything else is a block in use, ready to be freed |
| `Malloc.WholeLap` | initial-xv6/src/user/umalloc.c:74-89 | a search that comes back to freep has looked at every block |
| `Malloc.Allocator.FindPlace` | initial-xv6/src/user/umalloc.c:30-32 | from wherever freep is, the search ends, at the one place where the block belongs |
| `Malloc.Allocator.Free` | initial-xv6/src/user/umalloc.c:24-44 | the block is no longer in use, the heap is in order, and its units are in one block of the list |
| `Malloc.Allocator.Morecore` | initial-xv6/src/user/umalloc.c:46-61 | fails exactly when the kernel grants no memory, with nothing changed; otherwise the list has a block of at least the units asked for, the heap is larger by exactly what was asked, and the blocks in use are the same |
| `Malloc.Allocator.Malloc` | initial-xv6/src/user/umalloc.c:63-90 | returns a block that was in no one's use and holds nbytes, all blocks in use before still are; fails exactly when no block of the list is large enough and the kernel grants no memory, and takes memory from the kernel only then; the search ends within one lap, and one more after morecore |
| `Malloc.Units` | initial-xv6/src/user/umalloc.c:69 | that many units hold nbytes besides the header |
| `StableSort.StableSortIsUnique` | concurrency/Distributed-Sorting/finaltry.c:91-102 | there is only one ordered arrangement that keeps ties in their order |
| `StableSort.StableSortPermutes` | concurrency/Distributed-Sorting/finaltry.c:91-102 | it is a permutation of the input |
| `MergeSort.CompareIsOrder` | concurrency/Distributed-Sorting/finaltry.c:91-102 | the sign of compare_entries is the order of the column's keys, strings by strcmp |
| `MergeSort.Insert` | concurrency/Distributed-Sorting/finaltry.c:163-171 | the shifting loop makes the stable sort of the first i + 1 from that of the first i |
| `MergeSort.InsertionSort` | concurrency/Distributed-Sorting/finaltry.c:162-172 | the part becomes its stable sort, the rest of the array stays |
| `MergeSort.GetMinEntry` | concurrency/Distributed-Sorting/finaltry.c:104-123 | the first of the queues with the smallest head; -1 exactly when all are empty |
| `MergeSort.PopClass` | concurrency/Distributed-Sorting/finaltry.c:137-144 | taking from the first queue with the smallest head takes, for its key, the entry that came first |
| `MergeSort.KWayMerge` | concurrency/Distributed-Sorting/finaltry.c:125-149 | k sorted parts become the stable sort of the whole; the loop always finds an entry, so it ends |
| `MergeSort.PartsMakeWhole` | concurrency/Distributed-Sorting/finaltry.c:126-135 | the k chunks, the last with the remainder, make up the range |
| `MergeSort.ParallelMergeSort` | concurrency/Distributed-Sorting/finaltry.c:151-202 | the range becomes its stable sort and nothing outside it changes, for every length; recursion ends because every chunk is strictly shorter |
| `CountingSort.CountLocal` | concurrency/Distributed-Sorting/finaltry.c:204-211 | a thread's private counts are the histogram of its part |
| `CountingSort.AddInto` | concurrency/Distributed-Sorting/finaltry.c:212-214 | in every interleaving of the threads' fetch-and-adds the shared counts end as the sums |
| `CountingSort.CountAll` | concurrency/Distributed-Sorting/finaltry.c:227-245 | and so as the histogram of the whole array |
| `CountingSort.Accumulate` | concurrency/Distributed-Sorting/finaltry.c:246-248 | the running sums are the places where each key's entries end |
| `CountingSort.Place` | concurrency/Distributed-Sorting/finaltry.c:249-253 | placing from the back gives the stable sort by sort key |
| `CountingSort.ParallelCountingSort` | concurrency/Distributed-Sorting/finaltry.c:219-257 | the array becomes its stable sort by sort key, for every schedule of the threads |
| `CountingSort.SortFiles` | concurrency/Distributed-Sorting/finaltry.c:259-276 | by id the result is the stable sort by id whichever algorithm runs; by name or timestamp it is so above the threshold, for all keys, and by hash below it |
| `CountingSort.SortsAgree` | concurrency/Distributed-Sorting/finaltry.c:259-276 | on non-negative ids the two algorithms return the same array |
| `LazyFiles.StepKeeps` | concurrency/Lazy-Read-Write/finaltry.c:68-150 | every clock tick and every thread's step keeps the invariant |
| `LazyFiles.OccupancyIsSafe` | concurrency/Lazy-Read-Write/finaltry.c:101-131 | in every run: occupants are readers plus writers are the threads at work, never two writers, never more than c occupants, and none at work on a deleted file but its deleter |
| `LazyFiles.DeletedForGood` | concurrency/Lazy-Read-Write/finaltry.c:117 | a deleted file stays deleted |
| `LazyFiles.NoLostWakeup` | concurrency/Lazy-Read-Write/finaltry.c:101-142 | in every run no thread waits unsignalled while its request could be taken up, and none on a deleted file unless the deleter is still at work |
| `LazyFiles.OneOutcome` | concurrency/Lazy-Read-Write/finaltry.c:68-150 | every finished request was completed, declined or cancelled, exactly one of them; one taken up was so at a time in [send + 1, send + t) and ends completed |
| `LazyFiles.OneDelete` | concurrency/Lazy-Read-Write/finaltry.c:108-117 | at most one delete of a file is ever taken up |
| `VirtioDisk.FreeCount` | initial-xv6/src/kernel/virtio_disk.c:156-213 | the number of free descriptors is NUM minus three for each request in flight, so at most two are |
| `VirtioDisk.ChainsAreDisjoint` | initial-xv6/src/kernel/virtio_disk.c:201-213 | no descriptor is in two chains |
| `VirtioDisk.RingsHaveRoom` | initial-xv6/src/kernel/virtio_disk.c:272-277 | neither ring ever holds more than two entries, so none is overwritten before its use |
| `VirtioDisk.IndicesTell` | initial-xv6/src/kernel/virtio_disk.c:312-324 | the 16-bit indices differ exactly when a completion is waiting, through every wrap |
| `VirtioDisk.Driver.Alloc3Desc` | initial-xv6/src/kernel/virtio_disk.c:201-213 | three different free descriptors, or none taken and fewer than three were free |
| `VirtioDisk.Driver.FreeDesc` | initial-xv6/src/kernel/virtio_disk.c:169-182 | panics exactly on an index out of range or a free descriptor |
| `VirtioDisk.Driver.FreeChain` | initial-xv6/src/kernel/virtio_disk.c:185-197 | follows the links through the three descriptors and frees each, without panic |
| `VirtioDisk.Driver.Submit` | initial-xv6/src/kernel/virtio_disk.c:215-281 | a new request at the end of the available ring; the caller has to sleep exactly when two are in flight; everything kept |
| `VirtioDisk.Driver.DeviceTake` | initial-xv6/src/kernel/virtio_disk.c:272-277 | the device finds the oldest request it has not taken at its place on the ring |
| `VirtioDisk.Driver.DeviceComplete` | initial-xv6/src/kernel/virtio_disk.c:309-314 | a completion of any taken request, in any order and with any status, keeps the invariant |
| `VirtioDisk.Driver.Intr` | initial-xv6/src/kernel/virtio_disk.c:294-327 | completed requests are marked done in order, no others, all of them exactly when the device reports success for each; otherwise it panics at the first that failed |
| `VirtioDisk.Driver.Reap` | initial-xv6/src/kernel/virtio_disk.c:283-292 | a request whose buffer is no longer busy is one the device has completed, with success; its three descriptors are free again, no panic |
| `SleepWakeup.StepKeeps` | initial-xv6/src/kernel/proc.c:560-606 | every step between two lock operations of any process keeps the invariant |
| `SleepWakeup.NoLostWakeup` | initial-xv6/src/kernel/proc.c:560-606 | in every interleaving: while the condition is true and no wakeup is under way, nobody sleeps or is about to |
| `SleepWakeup.EverySleeperIsWoken` | initial-xv6/src/kernel/proc.c:590-606 | when a wakeup made under the lock releases it, everybody who had tested the condition before is runnable |
| `SleepWakeup.LkExcludes` | initial-xv6/src/kernel/proc.c:560-586 | the condition's lock has at most one holder throughout |
| `ProcTable.ZombiesHaveParents` | initial-xv6/src/kernel/proc.c:339-398 | every zombie's parent is alive |
| `ProcTable.ReportedOnce` | initial-xv6/src/kernel/proc.c:402-452 | wait reports no pid twice, and each with the status its process exited with |
| `ProcTable.SleepersHaveNoZombies` | initial-xv6/src/kernel/proc.c:339-452 | in every reachable state no process sleeps in wait that has a zombie child: exit's two wakeups are enough |
| `ProcTable.ReportedOrZombie` | initial-xv6/src/kernel/proc.c:402-452 | in every reachable state a process that exited has been reported by wait or is a zombie in the table, and never both: no exit is lost |
| `ProcTable.Table.constructor` | initial-xv6/src/kernel/proc.c:238-260 | init alone satisfies the invariant |
| `ProcTable.Table.AllocProc` | initial-xv6/src/kernel/proc.c:107-128 | the first free slot, with a pid never used before; none exactly when the table is full |
| `ProcTable.Table.Link` | initial-xv6/src/kernel/proc.c:326-328 | setting the child's parent keeps every parent alive |
| `ProcTable.Table.Start` | initial-xv6/src/kernel/proc.c:330-332 | only a child that has a parent may run, and so exit |
| `ProcTable.Table.Abandon` | initial-xv6/src/kernel/proc.c:300-305 | a failed fork leaves its slot free and no trace |
| `ProcTable.Table.Reparent` | initial-xv6/src/kernel/proc.c:339-351 | exactly the children of p become init's, and init is woken exactly if there are any |
| `ProcTable.Table.Exit` | initial-xv6/src/kernel/proc.c:379-393 | children to init, itself a zombie with its status, both parents woken and no one else; all parents are alive still, and no one is left sleeping in wait with a zombie child |
| `ProcTable.Table.Wait` | initial-xv6/src/kernel/proc.c:402-452 | the first zombie child's own pid and status, its slot freed and reported; otherwise the table stays, and it sleeps exactly with children, none of them a zombie, and not killed |
| `ProcTable.Table.Do` | initial-xv6/src/kernel/proc.c:287-452 | one critical section of any process does to the table exactly what Follows says |
| `ProcTable.Table.Run` | initial-xv6/src/kernel/proc.c:287-452 | over every sequence of the sections of fork, exit and wait by any processes: no process exits twice or is reported twice, each report is of an exit before it, with its status, and at every moment each exit has been reported or is a zombie with a living parent, and nobody sleeps in wait who has a zombie child |
| `Pipe.Store` | initial-xv6/src/kernel/pipe.c:95 | storing at the wrapped index overwrites no byte still to be read |
| `Pipe.Full` | initial-xv6/src/kernel/pipe.c:88 | the 32-bit tests for full and empty are right through every wrap of the counters |
| `Pipe.Buffer.Prefix` | initial-xv6/src/kernel/pipe.c:76-130 | what readers have got is a prefix of what was accepted, at most 512 bytes behind |
| `Pipe.Buffer.Write` | initial-xv6/src/kernel/pipe.c:76-103 | accepts the next bytes in order, as many as there are, as copyin can fetch, as fit and as come before a kill, and stops for the reason the source gives; a sleeping reader is left over unread bytes exactly under a condition on the call's inputs; a writer sleeps only over a full ring |
| `Pipe.ReaderLeftAsleep` | initial-xv6/src/kernel/pipe.c:84-87 | a run that ends so: a reader asleep over a byte, after a kill between two bytes |
| `Pipe.Buffer.Read` | initial-xv6/src/kernel/pipe.c:120-126 | hands out the next accepted bytes, as many as there are up to n and as copyout can store, and leaves no writer asleep over room; one byte is lost exactly when copyout fails on it |
| `Pipe.Buffer.StartRead` | initial-xv6/src/kernel/pipe.c:112-119 | a reader sleeps or gives up exactly when everything accepted has been read and a writer is left |
| `Pipe.Buffer.Close` | initial-xv6/src/kernel/pipe.c:58-74 | the page is freed exactly when both ends are closed, and nobody sleeps on for an end that is gone |
| `ShellTokens.GetToken` | initial-xv6/src/user/sh.c:266-309 | the loops find the token that the definition of tokens by position says, at the end of the line too |
| `ShellTokens.Peek` | initial-xv6/src/user/sh.c:311-321 | skips whitespace only, and tells what comes next |
| `ShellTokens.WordsAreWords` | initial-xv6/src/user/sh.c:296-300 | a word is a run of word characters, with none right after it |
| `ShellTokens.WordsOnce` | initial-xv6/src/user/sh.c:266-309 | no two tokens of a line are the same word |
| `ShellGrammar.LineSound` | initial-xv6/src/user/sh.c:345-360 | what parseline consumes is a line of the grammar with the tree it returns: ; below & below | below blocks, words and redirections |
| `ShellGrammar.LineComplete` | initial-xv6/src/user/sh.c:345-360 | every line of the grammar that the end or ) follows is consumed, and gives its tree |
| `ShellGrammar.ParsesGrammar` | initial-xv6/src/user/sh.c:328-343 | for all token sequences and trees: the parser returns the tree with nothing left over if and only if the grammar has it |
| `ShellGrammar.Unambiguous` | initial-xv6/src/user/sh.c:345-447 | no token sequence has two trees |
| `ShellGrammar.LineHasWords` | initial-xv6/src/user/sh.c:345-447 | the words of a tree are the words of its tokens |
| `ShellParser.ParseRedirs` | initial-xv6/src/user/sh.c:375-398 | takes exactly the redirections ahead, each with the mode and descriptor of its symbol and the file after it; fails exactly where a symbol has no word after it |
| `ShellParser.ParseExec` | initial-xv6/src/user/sh.c:416-447 | from every place of every line: the tree, the tokens left or the panic that ShellGrammar.TakeExec says; the loops and the mutual recursion end |
| `ShellParser.ParseBlock` | initial-xv6/src/user/sh.c:400-414 | the same against ShellGrammar.TakeBlock |
| `ShellParser.ParsePipe` | initial-xv6/src/user/sh.c:362-373 | the same against ShellGrammar.TakePipe |
| `ShellParser.ParseLine` | initial-xv6/src/user/sh.c:345-360 | the same against ShellGrammar.TakeLine |
| `ShellParser.Nulterminate` | initial-xv6/src/user/sh.c:450-494 | a NUL at the end of each word of the tree, and no other byte of the buffer changes |
| `ShellParser.WordsSurvive` | initial-xv6/src/user/sh.c:450-494 | no end of a word lies inside another, so every word reads back as its token |
| `ShellParser.ParseCmd` | initial-xv6/src/user/sh.c:328-343 | gives a tree exactly when the line's tokens are a line of the grammar, and then that tree; every word of the line is in it exactly once and reads back from the buffer as it was written; on a syntax error the buffer is unchanged |

## Left out

- Hardware and I/O: the UART, PLIC, console, traps beyond the store fault, assembly, memory fences and the inside of spinlocks; a lock region is a step.
- exec, uvmfirst, copyinstr, and processes grown up to the trapframe's address; the trapframe page and the tables above it and the trampoline are counted, the two entries and what is in the page are not modelled.
- The unsigned wrap of a page's reference count.
- CopyOnWrite.Kernel.Unmap: gives the page up and clears its entry in one step; apart they are in PageRace.
- CopyOnWrite.Kernel.AllocProc: takes the root's page before the trapframe's, the source after it.
- CopyOnWrite.Kernel.FreeTables: frees the table pages in any order; the order of the recursion, on the tree itself, is in PageTable.Pager.Teardown.
- CopyOnWrite.Kernel.MapPages: an address space is its leaves and table pages by place; that the three-level tree behaves so is PageTable.
- Transactions.System.Run: one device; a process that waits for a buffer takes its reference when it gets the lock, not before; changes are logged before their block is released, as every caller in fs.c does; an operation that asks for more new blocks than its budget is not run; a commit that finds the block to copy with a reader waits before it takes the log slot's buffer, where the source has it already.
- Log.Log.RecoverFromLog: starts from a disk whose log header is one that this log wrote, or empty.
- iget, iput, ilock and iupdate, and so inodes on disk: an inode is a value by its number; iupdate is a block logged.
- Directories, path names and links, which are built from readi and writei.
- FileSystem.Volume.Writei: copies from the source always succeed; the path where one fails half way is not modelled.
- FileSystem.Volume.Readi: copies to the destination always succeed.
- FileSystem.Volume.Filewrite: devices and pipes, which it passes on.
- Malloc.Allocator.Malloc: requests whose byte count does not fit the int that sbrk takes.
- Malloc.Allocator.Free: freeing what is not in use, which the source leaves undefined.
- MergeSort.ParallelMergeSort: the threads' calls are made in turn; each touches only its own part of the array.
- CountingSort.ParallelCountingSort: an empty input, and sort keys whose range does not fit an int.
- CountingSort.SortFiles: negative ids, and what the two hash functions compute.
- Request parsing, printing and the order of requests in LAZY; operations other than READ, WRITE and DELETE, which main refuses.
- LazyFiles.OneOutcome: one file; requests for different files share nothing.
- VirtioDisk.Driver.DeviceComplete: the data the device transfers is not modelled.
- ProcTable.Table.Wait: a scan under wait_lock and the sleep at its end are one step; that sleep and wakeup bear this out is SleepWakeup.  waitx and the scheduling statistics are left out.
- ShellParser.ParseExec: in the source redirections are wrapped around a command whose argument array is still being filled; here both are collected first.  The tree is the same.
- runcmd, and grep's line buffer.
