# A verified model of the course's shell, protocols and kernel

This project models the hardest code of a collection of operating-systems
coursework in Dafny and proves what that code is for. Check with
`dafny verify dfyconfig.toml`.

Below, K stands for `src/job10/http/concurrent/www/source`, the small Unix kernel
that the HTTP server ships as sample content. The copy of it under
`src/job10/http/serial/www/source` is the same kernel and is modelled once.

## What is modelled

**The shell parser** (`src/nju_os/sh.c`). `ShellSyntax` cuts a line into tokens,
`ShellGrammar` parses tokens and proves that parser against a grammar given
independently of it, `ShellText` goes from tokens to characters and back, and `ShellTokens`
says in terms of characters only what a line is cut into and what it spells.
`ShellParser` is the parser as the C code has it: a cursor into a buffer, a tree
whose exec node is filled while redirections already wrap it, and loops.
`ShellCommand` adds the in-place termination of all words. A failed assertion is a
parse error, as in a build without NDEBUG.

**Two pthread programs.** `RingBuffer` and `TokenRing` are the bounded buffer and the
token ring of `os-history/2022/answer/ring.c`, `TaskQueue` and `WorkerPool` the task
queue and the pool of `src/pfind.c`. Each protocol is a state machine whose steps are
what a thread does between two points where it can be held up; every interleaving is
covered, with spurious wakeups of condition variables.

**Virtual memory** (K/mm/vm.c, K/mm/page.c, K/cpu/mmu.c, K/cpu/mmu.h). `Paging` has the
address arithmetic and the two-level walk of section 4.3 of the Intel SDM, volume 3A.
`Spaces` is physical memory with a record of what each frame is for, in both
directions; a page table is right when its words mirror that record. `Vm` is the code,
over the words of the tables.

**Processes** (K/kernel/sync.c, wait.c, pcb.c, fork.c). The kernel is not preempted (soft
interrupts are handled only on the way back to user mode, K/cpu/irq.c:51), so a step is
a whole stretch of kernel code between two yields. `Processes` has the stretches and the
invariants, `ProcessRuns` and `ProcessHistory` the claims about whole runs,
`ProcessStranger` one particular run, and `Scheduler` the same stretches on fields.
`ChainList` is the pointer code of K/utils/list.c that all lists of the kernel use.

**The file store** (K/utils/bitmap.c, K/fs/fs.c, K/fs/regular.c). `Bitmap` works on bytes
and 32-bit words, `Blocks` on the numbers in an indirect block, `Files` has the inodes and
their block maps with what each block is for, and the flat files these stand for;
`FileStore` is the code.

**The caches** (K/fs/buffer.c, K/fs/itable.c, K/dev/hd.c). Buffers and inodes are cached by the
same code but for names, so `HashCache` is both: hash lists, the list by age and coherence,
with requests that are done at once. `CacheRuns` has its runs and `CacheOrder` the order in
which entries are taken for other items. `DiskRequests` has
requests in flight and get_buffer with its scan, which can sleep, for any number of
processes; `DiskProgress` says that what has been asked for comes to an end, and
`DiskContents` what the buffers then hold. In `BufferSearch` and `DoubleBuffers` a stretch of
kernel code is not interrupted; they say when a block can come to have two buffers.
`DiskExamples` has runs from the start of the kernel in which that happens, or a change is
lost.

**Slabs** (K/mm/memory.c). `Slab` has a pool of slots of one size and `SlabRuns` its runs.

**Pipes and program start.** `Fifo` and `Pipe` are K/utils/fifo.c and K/kernel/pipe.c, and
`PipeRuns` has any number of readers and writers. `Ustack` is the stack page of
K/mm/ustack.c.

`Options`, `Seqs`, `Lists` and `Division` are shared.

## Where the code does not do what it should

Each of these is a lemma; the others are assumed away where they would get in the way, as
said under "Left out".

- fs_alloc_block leaves out which block of the bitmap the bit was found in. It is right if
  and only if the first block is not full (`FileStore.AllocIsRight`), and otherwise it
  hands out a block in use (`FileStore.AllocGoesWrong`).
- A new indirect block is not cleared. The file is sound if and only if the block held
  zeros (`Files.IndirectNeedsZeros`); otherwise what is written there is taken for addresses,
  such as that of another file's block (`FileStore.Disk.StaleIndirect`).
- Nor is a new data block, or the rest of the last one. A write past the end leaves zeros
  in the gap if and only if the blocks it goes over hold zeros there (`Files.GapIsZero`);
  otherwise it brings to light what a removed file held (`FileStore.Disk.StaleSeen`).
- A truncated inode keeps its addresses. It can be used again if and only if it was empty
  (`Files.TruncatedIsGood`); otherwise two files come to share a block
  (`Files.TruncatedShares`). Creating over an existing file does this (K/fs/sys.c:75).
- fifo_write does not look at the room left. The queue is sound afterwards if and only if
  there was enough (`Fifo.Queue.Write`, `Pipe.Pipe.PipeWriteAll`).
- Closing the last end of a pipe wakes nobody. A sleeper of the other side has a reason to
  sleep if and only if that has not happened (`PipeRuns.SleepsRightly`); otherwise it can
  sleep for ever (`PipeRuns.CloseNotSeen`).
- A change of a buffer can be lost to a request on its way. It is kept in all that can follow
  if and only if the buffer is not at the drive and nobody is going to read it, or the disk
  has the same already (`DiskContents.SurvivesIffQuiet`, for the first change that is not of
  that kind; `BufferSearch.LastChangeSeen` for those that are, in any run). Two runs lose a
  change (`DiskExamples.LostChange`).
- get_buffer may sleep after it has looked for a block, and then take a second buffer for it.
  It does if and only if somebody has taken one since the look-up that is for the block still
  (`BufferSearch.SecondBuffer`). That cannot be if the scan meets no dirty buffer that it has to
  wait for (`BufferSearch.OneBuffer`), and can be if it does, and another process looks for
  the block (`DoubleBuffers.DoubledIffSleeps`). A run does it (`DiskExamples.TwoBuffers`).
- inode_read and inode_write never release the buffer of a data block. When as many blocks as there
  are buffers have been got and not released, the next other one stops the kernel
  (`CacheRuns.LeakStops`).
- sys_brk runs into the assertion of map_range when it grows the data into code above it. It does
  if and only if the new end is past the beginning of that code's first page (`Vm.BreakHitsCode`,
  `Vm.BreakFitsIff`; `Vm.BreakHitsCodeAt` is an example).
- map_range and copy_segment do not look whether alloc_frame found a frame. If it did not, the
  page is the kernel's frame 0 (`Spaces.FrameZeroMapped`).
- A slot of the pcb table can be used again while a child of its former process lives, and
  the new process is then told of that child's exit (`ProcessStranger.StrangerReaped`). The
  process told is the parent if and only if nobody in the parent's slot was reaped between
  the fork and the wait (`ProcessHistory.ToldIffStayed`).
- The slots of a bucket only have to begin in its page. The last one ends there if and only
  if the slots fill the page exactly (`Slab.LastSlotFits`), which they do in none of the
  pools (`Slab.LastSlotRunsOver`).
- page_up wraps around above 0xFFFFF000 (`Paging.PageUpIs`).

## How to read the contracts

State that the C code changes in place is a field that a method assigns; each such method
is proved equal to a function on values, or against the property itself, and what the
source promises is proved about that function. Memory, the list of free frames, the disk and
the tables of processes and inodes are fields of sequence or map type; the line buffer of the
shell, the bitmap, the byte ring and the stack page are arrays; exec nodes and list chains are
objects with pointers.

Ghost fields record what the hardware state does not: which frame or block is for what, which
tokens are left, what a pipe has carried. Numbers of processes that tell two users of one slot
apart exist in `ProcessHistory` only.

Callers of `FileStore` have enough free blocks, and files stay within 137 blocks. What free
blocks hold is anything, except where a file grows past nine blocks: then they hold zeros, as
inode_map needs, or inode_map clears the indirect block, as it should (`clears` in
`FileStore.Disk`). Callers of `Vm` have enough free frames; the budget counts one page
table more per segment than is needed where two segments share one. Segments do not
share pages, as map_range asserts, and stacks begin at a page boundary.

## Model

| member | source | states |
|---|---|---|
| ShellTokens.LexIff | src/nju_os/sh.c:234-279 | the tokens of a line are the only ones such that they stand in the line one behind the other, all else is white space, an operator is its own one character, or ">>", and no longer where it could be, and a word has none of the twelve separating characters in it and is between such characters or the ends of the line |
| ShellTokens.ParsesWhatIsSpelled | src/nju_os/sh.c:310-425 | parsecmd makes a command of a line if and only if the line consists of tokens, in that sense, of which a derivation means the command |
| ShellTokens.OperatorText | src/nju_os/sh.c:234-425 | what each of < > >> ; & and the bar does between any two words without a space, & being an error there |
| ShellGrammar.Language | src/nju_os/sh.c:310-425 | the recursive-descent parser accepts a line exactly when the line has a derivation in the shell grammar, and the command it returns is the one that derivation means |
| ShellGrammar.Unambiguous | src/nju_os/sh.c:326-425 | two derivations of the same line mean the same command |
| ShellGrammar.PrintMeans | src/nju_os/sh.c:182-230 | the fully parenthesised printing of any command is a derivation that means this command |
| ShellGrammar.PrintParse | src/nju_os/sh.c:310-425 | parsing the printed tokens of any command of at most nine words per exec gives it back and uses all of them |
| ShellText.RoundTrip | src/nju_os/sh.c:310-425 | the same on characters: any command of legal words, spelled out with all its parentheses, lexes and parses back to itself |
| ShellText.NormalForm | src/nju_os/sh.c:310-425 | for any line the shell accepts, printing the command and parsing again gives the same command |
| ShellText.ParsedSlicesDelimited | src/nju_os/sh.c:395-468 | every argv and file slice of the command of any line is one of its delimited words, so the byte at its end is never a word byte |
| ShellParser.Parser.constructor | src/nju_os/sh.c:310-317 | the cursor starts at the beginning of the NUL-terminated line |
| ShellParser.Parser.GetToken | src/nju_os/sh.c:234-270 | takes exactly the next token of the line, as ShellTokens.LexIff has them, reports its kind and slice, and moves the cursor forward unless the line is used up |
| ShellParser.Parser.Peek | src/nju_os/sh.c:272-279 | tells whether the next token is one of the given symbols; skips space and takes nothing |
| ShellParser.Parser.ParseCmd | src/nju_os/sh.c:310-324 | returns the command of the whole line, or stops at an assertion exactly where the grammar has no derivation |
| ShellParser.Parser.ParseLine | src/nju_os/sh.c:326-339 | agrees with the grammar-level parser on what it returns and on the tokens it leaves; the cursor never moves back |
| ShellParser.Parser.ParsePipe | src/nju_os/sh.c:341-350 | the same for pipes |
| ShellParser.Parser.ParseRedirs | src/nju_os/sh.c:352-375 | wraps the command in every redirection that follows, or fails where one has no file name |
| ShellParser.Parser.ParseBlock | src/nju_os/sh.c:377-393 | the same for a parenthesised block and the redirections after it |
| ShellParser.Parser.ParseExec | src/nju_os/sh.c:395-425 | the same for a simple command, filling the argument vector of a node that redirections may already wrap |
| ShellParser.Parser.ParseWords | src/nju_os/sh.c:405-424 | the argument loop: the words go into the exec node in order, at most nine, while redirections between them wrap the result |
| ShellCommand.NulTerminate | src/nju_os/sh.c:428-468 | writes NUL at the end of every argv and file slice of the tree and nowhere else |
| ShellCommand.CutKeepsWords | src/nju_os/sh.c:428-468 | afterwards each pointer denotes a C string that equals its original slice: no end lies inside another word |
| ShellCommand.ParseCommand | src/nju_os/sh.c:310-324 | for every NUL-terminated buffer: the one command that its line spells, character by character, with all words as C strings in the buffer and nothing else changed, or a failed assertion exactly where the line spells none |
| RingBuffer.PutAppends | os-history/2022/answer/ring.c:40-51 | putting into a buffer that is not full appends the item to its contents |
| RingBuffer.GetRemoves | os-history/2022/answer/ring.c:54-66 | getting from a buffer that is not empty takes the oldest item |
| RingBuffer.BoundedBuffer.PutItem | os-history/2022/answer/ring.c:40-51 | the same on the array and the two indices |
| RingBuffer.BoundedBuffer.GetItem | os-history/2022/answer/ring.c:54-66 | the same on the array and the two indices |
| TokenRing.NextIsMod | os-history/2022/answer/ring.c:100-121 | the wiring of main makes thread i put into the buffer of thread (i + 1) mod N |
| TokenRing.StepGood | os-history/2022/answer/ring.c:40-84 | every step of every thread, a spurious wakeup included, keeps the token in one place that accounts for all threads and buffers |
| TokenRing.Safety | os-history/2022/answer/ring.c:40-121 | in every interleaving with N threads and R rounds there is exactly one token, and the k-th print is by thread k mod N with value k |
| TokenRing.NoDeadlock | os-history/2022/answer/ring.c:40-121 | in every reachable state somebody can go on, or all threads have ended and all N times R lines are out |
| TokenRing.Terminates | os-history/2022/answer/ring.c:40-121 | without spurious wakeups every run has at most 9NR + N + 4 states, however the threads are scheduled, and one that cannot go on has printed all N times R lines |
| TaskQueue.WriteAppends | src/pfind.c:32-38 | a task written into a queue with room is behind all tasks in it |
| TaskQueue.TakeRemoves | src/pfind.c:44-50 | a task taken is the oldest one |
| TaskQueue.WriteWhenFullLoses | src/pfind.c:28-42 | one write more into any queue that is full destroys the oldest task and leaves nothing but the new one by the indices, so the semaphores are needed |
| TaskQueue.TaskTable.PutTask | src/pfind.c:32-38 | the same on the array and the two indices |
| TaskQueue.TaskTable.GetTask | src/pfind.c:44-50 | the same on the array and the two indices |
| WorkerPool.RoomAndWork | src/pfind.c:28-50 | whenever the producer is past its wait there is room, and whenever a worker is past its wait there is a task |
| WorkerPool.StepInv | src/pfind.c:28-107 | every step of the producer and of any worker keeps the account of tasks and semaphores |
| WorkerPool.Safety | src/pfind.c:28-107 | in every interleaving no unread slot is overwritten and no task is taken twice |
| WorkerPool.Completion | src/pfind.c:85-152 | when all workers have exited every task was processed exactly once, and no two pills were read by the same worker |
| WorkerPool.NoDeadlock | src/pfind.c:28-152 | in every reachable state somebody can go on, or all workers have exited |
| WorkerPool.TotalCorrectness | src/pfind.c:28-152 | every run has at most 12 times the tasks plus 15 times the workers plus 3 steps, and one that cannot go on has processed every task exactly once |
| Paging.PageUpIs | src/job10/http/concurrent/www/source/cpu/mmu.h:11-12 | page_up on 32 bits rounds up exactly when the address is at most 0xFFFFF000; below USER_END it stays there |
| Paging.PteRoundTrip | src/job10/http/concurrent/www/source/cpu/mmu.h:61-74 | an entry made for a frame is present, for the user and writable, has no other bit, and names that frame |
| Paging.IndicesOfPage | src/job10/http/concurrent/www/source/cpu/mmu.h:78-86 | the two indices of a user address make up its page number and are in range |
| Paging.PagesCover | src/job10/http/concurrent/www/source/mm/vm.c:43-60 | the pages of a segment are those that hold an address of it, and for an empty segment the page that it begins inside |
| Vm.Kernel.AllocFrame | src/job10/http/concurrent/www/source/mm/page.c:70-81 | takes the first frame of the free list, which was unused; 0 and no change when the list is empty |
| Vm.Kernel.FreeFrame | src/job10/http/concurrent/www/source/mm/page.c:61-87 | puts a frame whose only reference goes back on the free list, once, with count 0 |
| Vm.Kernel.OpenPte | src/job10/http/concurrent/www/source/cpu/mmu.c:38-44 | the frame that is recorded as the process's table for the address, and none exactly when the process has no such table |
| Vm.Kernel.CreatePte | src/job10/http/concurrent/www/source/cpu/mmu.c:46-59 | afterwards there is a table for the address; a new one is zero, and no page and nothing of any other process has changed |
| Vm.Kernel.MapPage | src/job10/http/concurrent/www/source/mm/vm.c:47-52 | maps one more page of the process to a frame that was unused, and its table if that is missing |
| Vm.Kernel.MapRange | src/job10/http/concurrent/www/source/mm/vm.c:43-53 | maps exactly the pages of the range and keeps all pages that were there |
| Vm.Kernel.SysBrk | src/job10/http/concurrent/www/source/mm/vm.c:189-205 | the four results of sys_brk and the new end; growing maps the new pages, keeps the old ones in their frames and keeps the segments page-disjoint and equal to what is mapped |
| Vm.BreakFitsIff | src/job10/http/concurrent/www/source/mm/vm.c:43-53 | the assertion of map_range holds for a growing break if and only if the interval of new pages meets neither of the other segments, a condition on the ends of the segments |
| Vm.BreakHitsCode | src/job10/http/concurrent/www/source/mm/vm.c:189-205 | with stacks that begin at a page boundary, as all do, it fails exactly when the code is above the data and the new end comes to lie past the beginning of the first page of the code |
| Vm.BreakHitsCodeAt | src/job10/http/concurrent/www/source/kernel/exec.c:33-55 | three segments of a program and a break for which it fails, and the page it fails at |
| Vm.Kernel.CopyPage | src/job10/http/concurrent/www/source/mm/vm.c:71-83 | the child gets one more page, in a frame that was unused, with the words of the parent's page |
| Vm.Kernel.CopySegment | src/job10/http/concurrent/www/source/mm/vm.c:62-84 | the child gets the pages of one segment, each with the parent's words, and nothing else changes |
| Vm.Kernel.NewProc | src/job10/http/concurrent/www/source/cpu/mmu.c:11-18 | a new process has a directory with no user entry and the kernel's entry, and a kernel stack, in two frames that were unused |
| Vm.Kernel.KernelMapped | src/job10/http/concurrent/www/source/mm/vm.c:25-34 | what all methods keep: the directory of every process has the entry that kernel_pgtbl_share copies |
| Vm.Kernel.CopyVm | src/job10/http/concurrent/www/source/mm/vm.c:86-100 | afterwards the child has the parent's segments and pages with equal contents and the kernel mapped, and parent and child are both settled: what is mapped is what the segments say |
| Spaces.ForkIsolation | src/job10/http/concurrent/www/source/mm/vm.c:86-100 | as the processor translates: at every user page the child can read and write the parent's words or faults where it faulted, the parent sees what it saw, and the child's frame is one that nothing used before; at the kernel's addresses the child's directory has what the parent's had |
| Spaces.KernelShared | src/job10/http/concurrent/www/source/mm/vm.c:25-34 | above the user's part all directories are the same: the kernel's entry and no other |
| Spaces.FrameZeroMapped | src/job10/http/concurrent/www/source/mm/vm.c:47-52 | when no frame is left, the page that is mapped is the frame 0 of the kernel, as the processor translates |
| Spaces.WalkIs | src/job10/http/concurrent/www/source/mm/vm.c:75-82 | the two-level walk of a program that reads or writes reaches the frame recorded for the page and faults exactly where none is |
| Spaces.AddTableGood | src/job10/http/concurrent/www/source/cpu/mmu.c:46-59 | a new table keeps every entry of every directory and table right |
| Spaces.AddPageGood | src/job10/http/concurrent/www/source/mm/vm.c:80-82 | so does a new page |
| Spaces.RemovePageGood | src/job10/http/concurrent/www/source/mm/vm.c:108-111 | so does a page given back |
| Spaces.RemoveTableGood | src/job10/http/concurrent/www/source/cpu/mmu.c:20-31 | so does a table given back that has no pages |
| Vm.Kernel.FlushSegment | src/job10/http/concurrent/www/source/mm/vm.c:102-115 | unmaps exactly the pages of the segment and frees each of their frames |
| Vm.Kernel.Compact | src/job10/http/concurrent/www/source/cpu/mmu.c:20-31 | frees every table of a process without pages and touches nothing of any other |
| Vm.Kernel.FlushVm | src/job10/http/concurrent/www/source/mm/vm.c:117-127 | afterwards the process has no page, no table and three empty segments |
| Vm.Kernel.KillZombie | src/job10/http/concurrent/www/source/kernel/wait.c:11-17 | the directory and the kernel stack go back, and no frame is the process's any more |
| Vm.Kernel.ProcessLife | src/job10/http/concurrent/www/source/mm/vm.c:86-205 | fork, any number of breaks, exit and wait leave the same frames free, as many of them, and every other frame with the same use and words |
| Spaces.LifeConserves | src/job10/http/concurrent/www/source/kernel/wait.c:11-69 | conservation for any number of steps of a life none of which touches what is another's, as the steps of ProcessLife are |
| Processes.StepOk | src/job10/http/concurrent/www/source/kernel/sync.c:12-77 | every stretch of kernel code keeps all process invariants, and the assertion of yield_cpu never fails |
| ProcessRuns.RunOk | src/job10/http/concurrent/www/source/kernel/sync.c:12-77 | in every run: each pcb is on exactly one list, the one its state says; the running process heads the running list; whoever sleeps in sys_wait has no zombie child and whoever was woken there has one |
| ProcessRuns.StepTurns | src/job10/http/concurrent/www/source/kernel/sync.c:12-34 | a stretch leaves everybody on the running list in place, or one place further when the processor is given up; new and woken processes come after them |
| ProcessRuns.RoundRobin | src/job10/http/concurrent/www/source/kernel/sync.c:12-34 | a process at position i of the running list runs when the processor has been given up i times, and not before, whatever was forked or woken meanwhile |
| ProcessRuns.WaiterIsAwake | src/job10/http/concurrent/www/source/kernel/wait.c:33-69 | a process in the loop of sys_wait is on the running list exactly when it has a zombie child, and otherwise asleep on its own wait_child_exit |
| ProcessRuns.PromptReap | src/job10/http/concurrent/www/source/kernel/wait.c:33-50 | a waiting process with a zombie child at position i runs after i yields and finds a zombie |
| ProcessHistory.ReapedOnce | src/job10/http/concurrent/www/source/kernel/wait.c:33-69 | a process that exits is waited for at most once and with the status it exited with; it is told to the process that forked it if and only if that one is the older of the two |
| ProcessHistory.ToldCode | src/job10/http/concurrent/www/source/kernel/wait.c:52-59 | the status told of a process is the second byte of the argument of the one call of sys_exit that it made |
| ProcessHistory.ToldIffStayed | src/job10/http/concurrent/www/source/kernel/wait.c:19-69 | whoever is told of the exit of a child is in the slot of the process that forked it, and is that process if and only if nobody in that slot was reaped in between |
| ProcessHistory.HasHistory | src/job10/http/concurrent/www/source/kernel/wait.c:11-69 | every run has such a history |
| ProcessHistory.StepConsistent | src/job10/http/concurrent/www/source/kernel/wait.c:11-69 | every stretch keeps what is known of parents, exit codes and reaped processes right |
| ProcessStranger.StrangerReaped | src/job10/http/concurrent/www/source/kernel/wait.c:19-31 | a run of fifteen stretches in which the process that forks and the one that is told are in the same slot and not the same |
| Scheduler.Kernel.constructor | src/job10/http/concurrent/www/source/kernel/idle.c:104-126 | the machine starts with the idle process alone, and the invariants hold |
| Scheduler.Kernel.YieldCpu | src/job10/http/concurrent/www/source/kernel/sync.c:12-24 | the running process is taken from the head of the running list and put at the end of the other list, whose state it gets; all other lists and pcbs are as before, every pcb stays on one list, and the head of the running list runs |
| Scheduler.Kernel.CondSignal | src/job10/http/concurrent/www/source/kernel/sync.c:58-67 | the first sleeper, if there is one, goes to the end of the running list and becomes runnable; all other lists and pcbs are as before, and every pcb stays on one list |
| Processes.LeftToRun | src/job10/http/concurrent/www/source/kernel/sync.c:12-24 | the assertion of yield_cpu holds if and only if the process stays on the running list or is not alone there |
| Scheduler.Kernel.CondBroadcast | src/job10/http/concurrent/www/source/kernel/sync.c:69-77 | so do all sleepers, in their order; no sleeper is left, and all other lists and pcbs are as before |
| Scheduler.Kernel.AllocPid | src/job10/http/concurrent/www/source/kernel/pcb.c:20-28 | the lowest free slot |
| Processes.AllocPid | src/job10/http/concurrent/www/source/kernel/pcb.c:20-28 | there is none exactly when all 128 slots are taken, and otherwise it is free and the lowest |
| Scheduler.Kernel.FindPcb | src/job10/http/concurrent/www/source/kernel/pcb.c:10-18 | the first pcb with the pid |
| Scheduler.Kernel.FindZombie | src/job10/http/concurrent/www/source/kernel/wait.c:19-31 | the zombie child in the lowest slot |
| Processes.FindZombie | src/job10/http/concurrent/www/source/kernel/wait.c:19-31 | there is none exactly when no slot holds a zombie whose ppid is asked for, and otherwise it is the lowest |
| Scheduler.Kernel.Schedule | src/job10/http/concurrent/www/source/kernel/sync.c:26-40 | the running process goes to the end of the running list, and the invariants are kept |
| Scheduler.Kernel.CondWait | src/job10/http/concurrent/www/source/kernel/sync.c:51-56 | the running process sleeps on the condition, somebody else runs, and the invariants are kept |
| Scheduler.Kernel.SysFork | src/job10/http/concurrent/www/source/kernel/fork.c:33-54 | the child is in the lowest slot that was free, with the caller as parent and exit code 0, behind all runnable processes; all other lists and pcbs are as before, and the invariants are kept |
| Scheduler.Kernel.SysWait | src/job10/http/concurrent/www/source/kernel/wait.c:33-50 | returns the exit code of the zombie it removes, or sleeps if there is none, and the invariants are kept |
| Scheduler.Kernel.SysExitStart | src/job10/http/concurrent/www/source/kernel/wait.c:52-59 | sets the exit code to the second lowest byte of the status, whatever the other bytes are |
| Scheduler.Kernel.SysExitEnd | src/job10/http/concurrent/www/source/kernel/wait.c:61-69 | wakes the parent if it is there and sleeps, becomes a zombie, and the invariants are kept |
| ChainList.ListInit | src/job10/http/concurrent/www/source/utils/list.c:38-41 | an initialised list head is the empty list |
| ChainList.Insert | src/job10/http/concurrent/www/source/utils/list.c:9-19 | linking a chain between two neighbours of a ring puts it between them in both directions |
| ChainList.Unlink | src/job10/http/concurrent/www/source/utils/list.c:21-26 | takes a chain out of the ring it is in, wherever it is, and nothing else |
| ChainList.PushTail | src/job10/http/concurrent/www/source/utils/list.c:77-81 | appends to the list the ring stands for |
| ChainList.PushHead | src/job10/http/concurrent/www/source/utils/list.c:62-66 | prepends to it |
| ChainList.PopHead | src/job10/http/concurrent/www/source/utils/list.c:68-75 | takes the first, or returns NULL for an empty list |
| ChainList.PopTail | src/job10/http/concurrent/www/source/utils/list.c:83-90 | takes the last, or returns NULL for an empty list |
| ChainList.Determined | src/job10/http/concurrent/www/source/utils/list.c:9-48 | a ring stands for one list only |
| Bitmap.AllocBit | src/job10/http/concurrent/www/source/utils/bitmap.c:5-25 | finds, through 32-bit words, the lowest bit that is clear for test_bit in bytes, and sets only that one; it fails exactly when all are set |
| Bitmap.FreeBit | src/job10/http/concurrent/www/source/utils/bitmap.c:27-45 | clears the bit, given its assertion that the bit is set |
| Bitmap.WordBit | src/job10/http/concurrent/www/source/utils/bitmap.c:13-21 | bit j of little-endian word i is bit 32i + j in bytes |
| Bitmap.SetSetsOne | src/job10/http/concurrent/www/source/utils/bitmap.c:33-38 | setting a bit changes no other |
| Bitmap.ClearClearsOne | src/job10/http/concurrent/www/source/utils/bitmap.c:40-45 | nor does clearing one |
| Bitmap.AllocThenFree | src/job10/http/concurrent/www/source/utils/bitmap.c:5-31 | freeing the bit that was allocated restores the bitmap |
| FileStore.AllocBlock | src/job10/http/concurrent/www/source/fs/fs.c:38-51 | takes the lowest clear bit of the first bitmap block that has one, changes nothing else, and returns an address without the number of that block; 0 exactly when all bits are set |
| FileStore.FreeBlock | src/job10/http/concurrent/www/source/fs/fs.c:53-65 | clears the bit of the address in the bitmap block it belongs to |
| FileStore.AllocIsRight | src/job10/http/concurrent/www/source/fs/fs.c:38-65 | the address returned was free and is taken now, as fs_free_block reads addresses, if and only if the first bitmap block was not full |
| FileStore.AllocGoesWrong | src/job10/http/concurrent/www/source/fs/fs.c:38-51 | with two bitmap blocks of which the first is full, the address returned is in use |
| Blocks.EntryRoundTrip | src/job10/http/concurrent/www/source/fs/regular.c:34-35 | an address stored in an indirect block is read back, and the other entries are as before |
| Blocks.EntryBytes | src/job10/http/concurrent/www/source/fs/regular.c:34-35 | it is in four bytes, the lowest first, and no other byte of the block changes |
| FileStore.Disk.InodeMap | src/job10/http/concurrent/www/source/fs/regular.c:9-39 | a block that has an address keeps it and nothing changes; the block after the last gets a free one, and the indirect block with it when it is the first that needs it; nothing but words of indirect blocks changes |
| Files.AddDirectGood | src/job10/http/concurrent/www/source/fs/regular.c:9-27 | a new direct block keeps all addresses of all inodes right and all blocks with one owner |
| Files.AddEntryGood | src/job10/http/concurrent/www/source/fs/regular.c:29-38 | so does a new entry of an indirect block |
| Files.IndirectNeedsZeros | src/job10/http/concurrent/www/source/fs/regular.c:29-38 | a new indirect block keeps them right if and only if the block held zeros |
| FileStore.Disk.InodeGrow | src/job10/http/concurrent/www/source/fs/regular.c:62-74 | the file gets longer by exactly what its blocks and the lowest free blocks, which become its new ones, held there before; no other file changes, and as many blocks are used as the size needs |
| FileStore.Disk.InodeRead | src/job10/http/concurrent/www/source/fs/regular.c:76-104 | nothing at or past the end of the file, and otherwise as many bytes as asked for or as there are from the position on, each of them that of the file |
| FileStore.Disk.InodeWrite | src/job10/http/concurrent/www/source/fs/regular.c:106-137 | the flat file is the old one, made longer like that if need be, with the bytes at the position; no other file changes; the return value is the number of bytes |
| Files.ChunkFiles | src/job10/http/concurrent/www/source/fs/regular.c:114-135 | writing a chunk into a block of one file is a splice of that file and leaves every other file as it is |
| Files.ChunkIs | src/job10/http/concurrent/www/source/fs/regular.c:87-102 | a chunk of a block is that part of the file |
| Files.OverlayByte | src/job10/http/concurrent/www/source/fs/regular.c:106-137 | after a write a byte is the new one where it was written, the old one elsewhere in the old file, and in a gap what the block held |
| Files.GapIsZero | src/job10/http/concurrent/www/source/fs/regular.c:62-74 | a write past the end leaves zeros in between if and only if the blocks that the file has and the free blocks it is going to get hold zeros there, as told before the write |
| FileStore.Disk.StaleSeen | src/job10/http/concurrent/www/source/fs/regular.c:41-74 | from any state with a free block: a file is written and removed, and another one that grows then shows what it held |
| FileStore.Disk.StaleIndirect | src/job10/http/concurrent/www/source/fs/regular.c:9-39 | from any state with a free block: a block whose first word is the address of another file's block is written and removed, and the tenth block of a file that grows is then that other file's block |
| Files.LastWritten | src/job10/http/concurrent/www/source/fs/regular.c:106-137 | after any run of writes every byte is what was written there last, or what it was before |
| FileStore.Disk.WriteRun | src/job10/http/concurrent/www/source/fs/regular.c:106-137 | any run of writes gives the flat file of that run, on what the file and the free blocks it has grown over held at the start |
| FileStore.Disk.ReadAfterRun | src/job10/http/concurrent/www/source/fs/regular.c:76-137 | a read after any run of writes gives in each byte what was written there last, or what the former file has there, up to the end of the file, which is as far as before or as the furthest write goes |
| FileStore.Disk.InodeTrunc | src/job10/http/concurrent/www/source/fs/regular.c:41-60 | frees exactly the data blocks of the file, and the indirect block if it has more than nine, each once; the addresses stay in the inode |
| Files.DroppedFree | src/job10/http/concurrent/www/source/fs/regular.c:41-60 | what is free afterwards is what was free before and the blocks of the file |
| Files.TruncatedIsGood | src/job10/http/concurrent/www/source/fs/regular.c:41-60 | a truncated inode can be used again as an empty file if and only if it was empty |
| Files.TruncatedShares | src/job10/http/concurrent/www/source/fs/regular.c:41-60 | otherwise its first block can be given to another file while both inodes have it written down |
| FileStore.Disk.Remove | src/job10/http/concurrent/www/source/fs/itable.c:65-83 | removing a file frees its blocks, keeps all other files and all invariants |
| FileStore.Disk.Create | src/job10/http/concurrent/www/source/fs/dir.c:170-183 | a new file is empty, and nothing else changes |
| FileStore.Disk.FileLife | src/job10/http/concurrent/www/source/fs/regular.c:41-137 | make a file, write to it any number of times, remove it: the other files and the whole bitmap are as before |
| HashCache.FromHashExact | src/job10/http/concurrent/www/source/fs/itable.c:91-104 | the search in one hash list finds the entry of an item exactly when there is one, although inode_free clears keys without moving entries to another list |
| HashCache.FromLruIs | src/job10/http/concurrent/www/source/fs/buffer.c:97-116 | the search by age writes dirty entries and takes one that is clean and not held; it finds none exactly when all were dirty or held at its start; no item's view changes |
| HashCache.ReplacedGood | src/job10/http/concurrent/www/source/fs/buffer.c:132-143 | taking such an entry for another item changes no item's view and leaves it in the right hash list |
| HashCache.GetEntryGood | src/job10/http/concurrent/www/source/fs/buffer.c:118-144 | get_buffer and get_inode return the one entry of the item, held; their assertion fails exactly when the item is not cached and every entry is dirty or held; no view changes |
| HashCache.ReadEntryGood | src/job10/http/concurrent/www/source/fs/buffer.c:146-160 | a read returns the entry with what the item is |
| HashCache.ModifiedGood | src/job10/http/concurrent/www/source/fs/regular.c:130-131 | a change marked dirty is what the item is from then on, and no other item's view changes |
| HashCache.ClearedGood | src/job10/http/concurrent/www/source/fs/itable.c:65-83 | a removed inode has no entry any more, no other item's view changes, and all other entries are still found |
| HashCache.SyncAll | src/job10/http/concurrent/www/source/fs/buffer.c:192-203 | after a sync no view has changed and the disk has what every item is |
| HashCache.EmptyGood | src/job10/http/concurrent/www/source/fs/buffer.c:43-57 | a new table has all invariants and every item as on the disk |
| CacheRuns.RunGood | src/job10/http/concurrent/www/source/fs/itable.c:65-171 | at every point of every run of calls the cache has its invariants, so an item has one entry at most and the search finds it |
| CacheRuns.ReadsLastWritten | src/job10/http/concurrent/www/source/fs/buffer.c:70-203 | in every run a read that finds an entry finds in it what was written last, whatever was evicted, written out and read again meanwhile; it finds none exactly when the item is not cached and every entry is dirty or held |
| CacheRuns.SyncsLastWritten | src/job10/http/concurrent/www/source/fs/buffer.c:192-203 | in every run a sync leaves on the disk what was written last |
| CacheRuns.LeakStops | src/job10/http/concurrent/www/source/fs/regular.c:76-137 | once as many blocks have been got and never given up as there are buffers, as inode_read and inode_write do with data blocks, the assertion of get_buffer fails for the next other block, whatever else was called |
| CacheOrder.GetTakesOldest | src/job10/http/concurrent/www/source/fs/buffer.c:85-144 | the entry got is that of the item, or else the oldest that is neither dirty nor held; it gets one reference and is the newest then, and all others keep item, data, references and order |
| CacheOrder.LeastRecent | src/job10/http/concurrent/www/source/fs/buffer.c:85-144 | in every run, an entry is taken for another item only when each other entry that is neither dirty nor held has been got since it was |
| HashCache.Table.FindInHash | src/job10/http/concurrent/www/source/fs/buffer.c:70-83 | the loop over a hash list |
| HashCache.Table.FindVictim | src/job10/http/concurrent/www/source/fs/buffer.c:97-116 | the loop over the list by age, with the invariants kept |
| HashCache.Table.Get | src/job10/http/concurrent/www/source/fs/itable.c:133-160 | get_inode, like get_buffer, with its relinking of both lists; the invariants are kept |
| HashCache.Table.Read | src/job10/http/concurrent/www/source/fs/buffer.c:146-160 | read_buffer, like read_inode, with the invariants kept |
| HashCache.Table.Sync | src/job10/http/concurrent/www/source/fs/itable.c:173-183 | afterwards the disk has what every item was through the cache |
| HashCache.Table.Write | src/job10/http/concurrent/www/source/fs/regular.c:130-131 | a change of an entry by who holds it changes the view of that item to it and of no other |
| HashCache.Table.Free | src/job10/http/concurrent/www/source/fs/buffer.c:64-68 | gives up one reference to the entry, changes nothing else and no view |
| HashCache.Table.Clear | src/job10/http/concurrent/www/source/fs/itable.c:65-83 | the end of inode_free keeps the invariants and all other views |
| Slab.TakenGood | src/job10/http/concurrent/www/source/mm/memory.c:99-107 | the slot handed out was free, and all buckets stay accounted for: free slots are those not live, as many as object_count says, and a bucket is on the free list exactly when it has one |
| Slab.ReturnedGood | src/job10/http/concurrent/www/source/mm/memory.c:110-120 | giving back a live slot keeps that account |
| Slab.GrownGood | src/job10/http/concurrent/www/source/mm/memory.c:59-81 | so does a new bucket |
| Slab.SlotsApart | src/job10/http/concurrent/www/source/mm/memory.c:74-79 | two slots of a bucket do not overlap |
| Slab.SlotsAre | src/job10/http/concurrent/www/source/mm/memory.c:59-81 | the slots of a page begin behind the 28 bytes of its header, at every multiple of the size, before its end |
| Slab.LastSlotFits | src/job10/http/concurrent/www/source/mm/memory.c:54-79 | the last slot of a bucket ends in its page if and only if the slots fill the page exactly |
| Slab.LastSlotRunsOver | src/job10/http/concurrent/www/source/mm/memory.c:190-202 | in each of the nine pools it does not |
| Slab.MemoryPool.NewBucket | src/job10/http/concurrent/www/source/mm/memory.c:59-81 | a bucket with every slot that begins in the page goes to the end of the free list, and the account is kept |
| Slab.MemoryPool.CutPage | src/job10/http/concurrent/www/source/mm/memory.c:74-79 | the carving loop gives every such slot once, in order, and leaves the header alone |
| Slab.MemoryPool.Alloc | src/job10/http/concurrent/www/source/mm/memory.c:83-108 | never hands out a live slot or one in the header of a page, and fails exactly when no bucket has a free slot and there is no page |
| Slab.MemoryPool.Free | src/job10/http/concurrent/www/source/mm/memory.c:110-120 | the slot is not live any more, and the account is kept |
| Slab.PoolFor | src/job10/http/concurrent/www/source/mm/memory.c:130-142 | the pool chosen is the one with the smallest sufficient slots; there is none exactly above 4000 bytes |
| SlabRuns.NeverTwice | src/job10/http/concurrent/www/source/mm/memory.c:83-120 | in every run a slot that was handed out is not handed out again unless it was given back |
| SlabRuns.RunGood | src/job10/http/concurrent/www/source/mm/memory.c:59-120 | at every point of every run the account of slots and buckets is right |
| DiskRequests.StepInv | src/job10/http/concurrent/www/source/fs/buffer.c:162-190 | every step keeps the account of references and locks, a reference for each client and each request, and the lock with at most one request; and nobody sleeps who ought to have been woken |
| DiskRequests.CompleteWakes | src/job10/http/concurrent/www/source/dev/hd.c:85-94 | the end of a request wakes all who wait for its buffer and, of those who wait for the drive, exactly one if there are any |
| DiskRequests.UnusedIsIdle | src/job10/http/concurrent/www/source/fs/buffer.c:162-190 | a buffer without references is not locked, not waited for and not at the drive |
| DiskRequests.WaitHasReference | src/job10/http/concurrent/www/source/fs/buffer.c:171-176 | the assertion of buffer_wait_io holds whenever it is called after a request |
| DiskRequests.InFlightSafety | src/job10/http/concurrent/www/source/dev/hd.c:85-107 | in every interleaving the drive has at most one request, each one taken is done once, and what get_buffer evicts, having seen that it is not dirty and has no references, is not locked, waited for or at the drive |
| DiskRequests.NoDeadlock | src/job10/http/concurrent/www/source/dev/hd.c:88-107 | in every reachable state a request can be done, taken or started, or a scan or a waiter can go on; or nobody waits and the drive has nothing to do; or a scan has come to its end and the assertion of get_buffer fails |
| DiskProgress.Terminates | src/job10/http/concurrent/www/source/fs/buffer.c:97-190 | from any point of any run, what can follow without new calls is bounded, and when nothing of it is left everything is done, or the assertion of get_buffer has failed |
| DiskProgress.SyncWaits | src/job10/http/concurrent/www/source/fs/buffer.c:162-190 | in every interleaving, who asks for a request and waits goes on only when the drive has done that request, which leaves the buffer clean and unlocked, and after a read with what is on the disk |
| DiskContents.SurvivesIffQuiet | src/job10/http/concurrent/www/source/fs/buffer.c:146-190 | a change of a buffer is kept in everything that can follow if and only if the buffer is not at the drive and nobody is going to read it, or the disk has the same already |
| DiskExamples.LostChange | src/job10/http/concurrent/www/source/dev/hd.c:77-107 | two runs from the start of the kernel to a change that does not survive: of a buffer at the drive, and of one that somebody waits to read |
| BufferSearch.SecondBuffer | src/job10/http/concurrent/www/source/fs/buffer.c:118-144 | in every interleaving, when a process that did not find a block takes a buffer for it, the block gets a second one if and only if somebody took one for it since the look-up and that is for the block still |
| BufferSearch.OneBuffer | src/job10/http/concurrent/www/source/fs/buffer.c:97-144 | in a kernel that is not preempted, a block has one buffer at most as long as each search for it that fails finds no dirty buffer on its way that has to be waited for |
| DoubleBuffers.DoubledIffSleeps | src/job10/http/concurrent/www/source/fs/buffer.c:97-144 | with nobody in get_buffer and two idle buffers, a block that is not found can come to have two buffers, by another look-up meanwhile, if and only if the scan meets a dirty buffer it has to wait for before an idle one |
| DiskExamples.TwoBuffers | src/job10/http/concurrent/www/source/fs/buffer.c:118-144 | a run from the start of the kernel in which a block comes to have two buffers |
| BufferSearch.LastChangeSeen | src/job10/http/concurrent/www/source/fs/buffer.c:97-190 | in every run of the kernel, from a change of a buffer that is not at the drive and that nobody is going to read until the next change of that block, the block holds what was written, whatever is written out, evicted and read again, if no failed search for it is one that has to wait |
| BufferSearch.RunCoherent | src/job10/http/concurrent/www/source/fs/buffer.c:97-190 | in every run in which all changes are of that kind and no failed search has to wait, a clean buffer holds what is on the disk and nothing is being read and written at the same time |
| Fifo.Queue.GetChar | src/job10/http/concurrent/www/source/utils/fifo.c:44-52 | takes the first byte |
| Fifo.Queue.UngetChar | src/job10/http/concurrent/www/source/utils/fifo.c:54-61 | puts a byte before the first |
| Fifo.Queue.PutChar | src/job10/http/concurrent/www/source/utils/fifo.c:63-70 | puts a byte after the last |
| Fifo.Queue.UnputChar | src/job10/http/concurrent/www/source/utils/fifo.c:72-80 | takes the last byte |
| Fifo.Queue.Read | src/job10/http/concurrent/www/source/utils/fifo.c:82-101 | takes the first bytes, as many as asked for or as there are, across the end of the ring |
| Fifo.Queue.Write | src/job10/http/concurrent/www/source/utils/fifo.c:103-121 | appends all bytes if they fit; the queue is sound afterwards if and only if they do |
| Fifo.RingSplits | src/job10/http/concurrent/www/source/utils/fifo.c:82-121 | the bytes of a ring are those up to any place and those after it, wherever the ring ends |
| Pipe.Pipe.PipeRead | src/job10/http/concurrent/www/source/kernel/pipe.c:21-35 | a turn of the loop, on the byte ring: the oldest bytes, as many as asked for or as there are; sleep exactly when it is empty with writers; end of file means that all that was written was read |
| Pipe.Pipe.PipeWrite | src/job10/http/concurrent/www/source/kernel/pipe.c:37-56 | a turn of the loop, on the byte ring, that passes on as much as there is and as there is room for; EPIPE exactly without readers, sleep exactly when it is full with readers |
| Pipe.Pipe.PipeWriteAll | src/job10/http/concurrent/www/source/kernel/pipe.c:52 | the turn as the code has it: the pipe is sound afterwards if and only if there was room for all that is left, and then it is the same |
| PipeRuns.InOrder | src/job10/http/concurrent/www/source/kernel/pipe.c:21-56 | in every interleaving of any number of readers and writers, what was read followed by what is in the pipe is what was written, every write has its bytes there in their order, and readers and writers never sleep at the same time |
| PipeRuns.ReadReturns | src/job10/http/concurrent/www/source/kernel/pipe.c:21-35 | in every run a read that returns has taken the oldest bytes, as many as there were but no more than its size; none only if the size is 0 or the pipe was empty without writers |
| PipeRuns.WriteReturns | src/job10/http/concurrent/www/source/kernel/pipe.c:37-56 | in every run a write that returns has written all its bytes in their order, or there is no reader |
| PipeRuns.SleepsRightly | src/job10/http/concurrent/www/source/kernel/pipe.c:26-50 | a sleeping process has a reason to sleep if and only if the other end has not been closed meanwhile |
| PipeRuns.Terminates | src/job10/http/concurrent/www/source/kernel/pipe.c:21-56 | from any point of any run, the turns that can follow without new calls are bounded by the bytes left to write and the number of processes, and when none is left each call has returned or sleeps on an empty or a full pipe |
| PipeRuns.CloseNotSeen | src/job10/http/concurrent/www/source/kernel/pipe.c:64-74 | a run in which the last writer closes its end and a sleeping reader is not woken for the end of file, nor by anything else |
| Ustack.Stack.PushString | src/job10/http/concurrent/www/source/mm/ustack.c:24-33 | the string and its zero are just below what was there, which is unchanged; EFAULT exactly when it does not fit |
| Ustack.Stack.PushVector | src/job10/http/concurrent/www/source/mm/ustack.c:35-54 | the strings follow one another from the first to the last; EFAULT exactly when they do not fit |
| Ustack.Stack.PushArgv | src/job10/http/concurrent/www/source/mm/ustack.c:77-106 | below the strings there is an aligned table of their addresses, ended by NULL; EFAULT exactly when it does not fit |
| Ustack.Stack.PushEnvv | src/job10/http/concurrent/www/source/mm/ustack.c:108-137 | the same for the environment |
| Ustack.Stack.Build | src/job10/http/concurrent/www/source/mm/ustack.c:139-158 | succeeds if and only if the whole layout fits in the page, and then it is there in disjoint regions |
| Ustack.EndIs | src/job10/http/concurrent/www/source/mm/ustack.c:77-158 | where the stack ends: each table as close below its strings as its alignment allows, the three words just below |
| Ustack.Recovered | src/job10/http/concurrent/www/source/mm/ustack.c:139-158 | in such a page, argc is the number of arguments, and following argp and envp gives back argv and envv verbatim |
| Ustack.VectorReads | src/job10/http/concurrent/www/source/mm/ustack.c:77-137 | reading strings from a table of addresses up to NULL gives the vector |

## Left out

- FileStore.Disk.InodeMap: the failure of a block allocation is not modelled, because the code then goes on with block 0; the callers have enough free blocks.
- FileStore.Disk.InodeGrow: enough free blocks; past nine blocks, zeros in free blocks or an inode_map that clears the indirect block.
- FileStore.Disk.InodeWrite: as InodeGrow; a write past 137 blocks, where the code would run over the end of the indirect block, is excluded.
- FileStore.Disk.WriteRun: as InodeWrite, for the furthest of the writes.
- FileStore.Disk.ReadAfterRun: as WriteRun.
- FileStore.Disk.FileLife: as WriteRun.
- FileStore.Disk.Create: fills the addresses with zeros, which dir_make_common does not do.
- FileStore.Disk.Remove: the inode is not looked at again after truncation; the inode bitmap is not modelled.
- FileStore.AllocBlock: the size of the device is not compared with the bitmap, by the code or the model.
- HashCache.GetEntryGood: disk requests are done at once here, and so in the members that follow from it; requests that sleep, also between the search of get_buffer and its insertion, are in DiskRequests.
- HashCache.FromLruIs: a dirty entry is written at once; the sleep is in DiskRequests.
- HashCache.ReadEntryGood: the read is done at once; waiting for it is in DiskRequests.
- HashCache.Table.Get: as GetEntryGood.
- HashCache.Table.Read: as ReadEntryGood.
- HashCache.ModifiedGood: code that changes a buffer without marking it dirty, as K/fs/dir.c does, is not modelled.
- HashCache.SyncAll: the writes are done at once; a sync with requests in flight is some writes started one after another, in DiskRequests.
- HashCache.Table.FindVictim: as FromLruIs.
- HashCache.Table.Sync: as SyncAll.
- CacheRuns.RunGood: calls are done one after another; calls that sleep in the middle are in DiskRequests.
- CacheRuns.ReadsLastWritten: as RunGood; with requests in flight it is BufferSearch.LastChangeSeen.
- CacheRuns.SyncsLastWritten: as RunGood.
- CacheRuns.LeakStops: as RunGood.
- CacheOrder.LeastRecent: as RunGood.
- DiskRequests.InFlightSafety: the hash lists are those of HashCache and are left out here; data of a read arrives when the request is done; failures of the drive do not exist in the code either.
- DiskProgress.Terminates: what clients do with the buffers they have is not bounded.
- DoubleBuffers.DoubledIffSleeps: other processes in get_buffer at the beginning are left out; BufferSearch.SecondBuffer has them.
- BufferSearch.LastChangeSeen: a search that has to wait is left out, because the block can then come to have two buffers.
- BufferSearch.RunCoherent: as LastChangeSeen.
- Vm.Kernel.MapRange: the callers have enough free frames; what the code does without is Spaces.FrameZeroMapped, and nothing more is said of such a state.
- Vm.Kernel.CreatePte: needs a free frame if the table is missing, for that reason.
- Vm.Kernel.MapPage: as MapRange.
- Vm.Kernel.SysBrk: as MapRange; a break that does not fit is excluded, as map_range stops at its assertion there, exactly when Vm.BreakFitsIff and Vm.BreakHitsCode say.
- Vm.Kernel.ProcessLife: as MapRange and SysBrk, for the copy and each break.
- Vm.Kernel.CopyPage: as MapRange.
- Vm.Kernel.CopySegment: as MapRange.
- Vm.Kernel.CopyVm: as MapRange.
- Vm.Kernel.KillZombie: the memory of the pcb itself comes from the slab allocator and is not part of this account.
- Vm.Kernel.NewProc: needs two free frames, as MapRange; the kernel's part of a directory is one entry, as there are 4 MB of memory, and what its table says is not modelled; TLB flushes are not modelled.
- Processes.StepOk: sys_fork with a full table, where the code indexes it with an error number, is not a step; nor is a sys_wait whose status pointer is not writable.
- Scheduler.Kernel.SysExitStart: closing files and freeing inodes between the two halves of sys_exit appears as the waits and signals it can cause.
- Processes.FindZombie: a process that exits while its parent does not wait stays in the table; nothing adopts orphans, in the code or the model.
- Pipe.Pipe.PipeWrite: passes on no more than there is room for, which the code does not do; the code's own turn is Pipe.Pipe.PipeWriteAll.
- PipeRuns.InOrder: as PipeWrite.
- PipeRuns.WriteReturns: as PipeWrite.
- Ustack.Stack.Build: the checks that the strings of the caller are readable; the mapping of the page is K/mm/ustack.c:160-172.
- ShellParser.Parser.ParseExec: the word lists of a node are sequences in place of fixed arrays; the limit of nine words is modelled.
- ShellText.RoundTrip: characters in place of bytes.
- TokenRing.Safety: a critical section under the mutex is one step; signals wake any one sleeper.
- WorkerPool.Completion: what a worker does with a task is one step; the directory walk that makes the tasks is not modelled.
- The HTTP and echo servers and the network code: input and output with no deep state.
- runcmd of the shells and all system calls they make: foreign code.
- The other shells and lexers: flatter than this one.
- `pc1.c`, `pc2.c`, `D1.c` and `Dx.c`: the bounded buffer of the token ring with a weaker claim.
- `src/sort.c`, coroutines, device drivers other than the queue of the disk, trap entry and context switches.
- Slab.MemoryPool.Alloc: slots are told apart by where they begin; what is written past the end of a page is not modelled, and slot lists are sequences of addresses.
- Floating point, terminal colours and printed text.
