# FlyanxOS: a verified model of its core

FlyanxOS is a microkernel in the MINIX tradition: tasks, servers and user processes communicate by rendezvous, the memory
manager and the file system are servers, and drivers are tasks. This project models the parts of it whose correctness is
hardest to see by reading, and proves what they guarantee. `dafny verify dfyconfig.toml` checks everything.

## What is modelled

* **The kernel's rendezvous, run queues and held interrupts** (`KernelState`, `KernelInvariants`, `KernelSteps`,
  `KernelRuns`, `KernelTheorems`, `KernelEffects`, `KernelLists`, `KernelSchedule`, `KernelPriority`, `KernelOvertaking`,
  `KernelLinks`, `KernelTable`). The class `KernelTable.Kernel` works as the kernel does, on one array of table entries through which the ready lists, the sender queues and the held list run as links. Every one of
  its methods is proved to do to the links what a function of `KernelState` does to sequences. On those functions the
  invariants are proved, for tables of any size, for every run of calls, interrupts, system-task requests and calls of
  `schedule` from boot. `KernelEffects` and `KernelLists` say in fields and lists, without those functions, what every call
  and event comes to.
* **The memory manager** (`Holes`, `HoleTable`, `MmState`, `MmInvariants`, `MmSteps`, `MmMemory`, `MmTiles`, `MmRuns`,
  `MmTheorems`, `MmAnswers`, `MmWaits`, `MmReports`, `MemoryManager`). `HoleTable.Memory` is the hole list, two linked lists in
  one array of slots; `MemoryManager.Manager` is the process table with fork, exit, wait and the reply loop, and runs above it.
  `MmAnswers` says in fields what every request is answered.
* **The input side of a terminal** (`Terminal`, `TerminalRuns`, `TerminalTyping`, `TerminalQueue`): line editing, the ring of
  characters, and the transfer to a reader through a staging buffer. `TerminalTyping` says in bytes and settings what each byte
  and each typed line does.
* **The sector bitmap** (`SectorMap`, `SectorRuns`): the map of a new file system, marking and clearing runs of bits over
  bytes and sectors, and runs of creating and deleting files.
* **Reading and writing files** in chunks of whole sectors (`FileTransfer`).
* **Alarms** (`AlarmClock`, `AlarmTask`): clock ticks of 32 bits and the earliest alarm.
* **The argument stack of a new program** (`ExecImage`, `ExecStack`): built in `execv`, relocated in `do_exec`.
* **Printing numbers** (`NumberFormat`).

In each part a value-level module defines what an operation does, a class or methods do it step by step as the source does,
with the source's branches, and lemmas state what follows for every input or every run.

## What was found

Where the code does not do what its comments promise, the model follows the code, and a lemma says exactly when the promise
is kept:

* Strict priority fails in exactly one situation: a server that has just become ready runs although a task is ready
  (`StrictPriorityExactly`); an event brings it about exactly if it lets a server come onto the empty server list while a
  task stays ready (`PriorityIsLostExactly`; `OvertakingIsReachable` gives a run).
* `schedule`, which is to move the user at the head of its list to the end, takes it off the list instead: the tail of that
  list is never right when it would have to be. Unless no user is ready, the user that headed the list never runs again,
  although nothing blocks it (`ScheduleKeepsListedExactly`, `ScheduledUserStarves`). Nothing else suffers: messages,
  interrupts and the other processes are as safe after such a call as before.
* Fork keeps the table consistent exactly if the parent neither is blocked sending nor has anybody queued on it, and exit
  exactly if nobody is queued on the dying process (`ForkKeepsInvExactly`, `ExitKeepsInvExactly`).
* Giving memory back joins neighbouring holes completely exactly if there is nothing to join on both sides and the merge
  counter, which is never reset between calls, does not reach its limit first (`FreeingCoalescesExactly`). All the same the
  hole table can never fill up, because all processes are of one size (`HoleTableNeverFull`).
* A process without children that calls wait is told so exactly if no freed slot still names it as parent
  (`ChildlessIsToldExactly`); otherwise it waits, and nothing ever ends that (`ChildlessCanWaitForever`).
* A waiting parent is told of whichever child dies first, be it one it asked about or not (`AnyDeathEndsTheWait`); it is sure
  to be told of one it asked about if it asked about all it has (`RightChildEndsTheWait`, `WrongChildIsReported`).
* Nobody is ever given a process group: whoever waits for one is told that it has no children (`GroupsAreNeverFound`), and
  whoever waits for its own group waits for any child (`WaitAnswers`).
* With ECHOE the KILL character is itself queued (`KillQueuesItself`). A line that fills the queue cannot be ended
  (`FullLineIsStuck`).
* New settings are taken for canonical ones or not by a bit of the wrong word. When it is clear, as it is by default, every
  queued character becomes a line and the minimum is VMIN, in canonical mode too; when it is set, queued characters stay
  unmarked and the minimum is 1, outside canonical mode too. `CanonicalAfterSettingsExactly` and `RawAfterSettingsExactly`
  say when the next reader gets what the mode promises all the same. So it is with flow control: settings that switch it off
  leave stopped output stopped for good, whatever is typed, exactly if the bit that is tested is set
  (`StoppedForGoodExactly`).
* With VMIN and VTIME both in use and something queued, a read asks for the minimum of whatever settings came before
  (`ReadAsksExactly`, `ReadAsksAfterSettingsExactly`).
* Deleting a file leaves the last, partly covered byte of its run marked, exactly if there is one (`AllAreFreedExactly`);
  with the sizes in use that is one sector of every file that has a place of its own (`DefaultFilesKeepOneSector`).
* Allocation looks at the first bit of a run only. Files that begin a whole number of file sizes apart never share a sector all
  the same (`FilesStayApart`); but a new file system also holds cmd.tar, at a fixed sector. Exactly if the sector map of
  the disk has 1789 sectors, or 2048 more, and so on, cmd.tar is in line with the others (`NewFileSystem`). On all other disks
  (between 48 MB and 183 GB) one of the files created is given sectors of cmd.tar, on small ones the 45th, and deleting both
  stops the file system (`InstalledFileIsHit`).
* A read stops at the end of the file exactly if it asks for nothing, ends there anyway, or begins in a later sector; any
  other one returns bytes from behind it (`ReadsRunOn`). A read that reaches beyond the end of the file, or begins beyond
  it, also makes the file larger (`ReadsEnlarge`). A write is rounded up to whole chunks, and
  goes on behind the file's sectors exactly if it reaches their end or its last chunk does (`WritesSpillOver`); with the
  buffer in use, writing a whole file overwrites all of the next one (`DefaultWritesSpillOver`).
* An alarm whose time lies beyond the wrap of the clock is due at once, or is lost (`AlarmIsAheadExactly`); all others go off
  no sooner than was asked (`AlarmsAreNotEarly`, `OnTimeExactly`). The clock loses ticks exactly if an interrupt finds 65535
  or more of them lost (`TicksAreConserved`).
* A printed number denotes another number exactly if the zeros that the flags `-` and `0` put behind it do not make up for the
  digits that its precision cuts off, and it is not 0 (`FieldDenotesExactly`).

## Model

| member | source | states |
|---|---|---|
| KernelTable.Kernel.constructor | src/kernel/main.c:48-191 | the boot loop ends in the state in which every task and server but IDLE and HARDWARE, and ORIGIN, is ready once, in slot order, and the hunter has picked the first |
| KernelTable.Kernel.Hunter | src/kernel/process.c:129-178 | the head of the first non-empty list is made current, IDLE if all are empty |
| KernelTable.Kernel.Ready | src/kernel/process.c:184-238 | relinking at the tail, or for users at the front, is the list operation the invariants are proved for |
| KernelTable.Kernel.Unready | src/kernel/process.c:243-313 | the process, wherever it is linked, leaves its list; the others stay in order; the hunter runs when the source runs it |
| KernelTable.Kernel.LeadsTo | src/kernel/message.c:81-91 | the chain walk ends, and finds the caller exactly if following blocked senders from the destination leads to it |
| KernelTable.Kernel.SendMessage | src/kernel/message.c:44-140 | all outcomes of a send on the linked table: refusals, direct delivery, or blocking at the end of the queue |
| KernelTable.Kernel.FindSender | src/kernel/message.c:170-196 | the scan stops at the first queued sender the receiver admits |
| KernelTable.Kernel.ReceiveMessage | src/kernel/message.c:146-239 | a receive on the linked table takes the first admitted sender's message, else a blocked interrupt, else blocks |
| KernelTable.Kernel.SysCall | src/kernel/message.c:254-328 | SEND, RECEIVE and SEND_REC by the current process, with the refusals, on the linked table |
| KernelTable.Kernel.Interrupt | src/kernel/process.c:43-122 | an interrupt is held, marked as blocked, or delivered, depending on kernel activity and on what the task waits for |
| KernelTable.Kernel.Unhold | src/kernel/process.c:421-439 | the loop ends, and has repeated every held interrupt oldest first |
| KernelTable.Kernel.DoFork | src/kernel/system.c:89-121 | copying a whole entry over a vacant one, links and the head of its queue included, disturbs no list |
| KernelTable.Kernel.DoExec | src/kernel/system.c:152-153 | a process that waits for the reply to exec is released without one |
| KernelTable.Kernel.DoNewMap | src/kernel/system.c:525-573 | a process with a new map becomes ready if nothing else blocks it; a bad number is refused |
| KernelTable.Kernel.DoExit | src/kernel/system.c:213-276 | the nested search unlinks the process from the one queue it is on, and its slot becomes vacant; its own queue stays |
| KernelRuns.RunKeepsInv | src/kernel/message.c:44-328 | every run of calls, interrupts, exec, map, fork, exit and calls of `schedule` keeps queue membership, acyclic waiting, rendezvous, run queues, held list and message order together |
| KernelRuns.BootIsConsistent | src/kernel/main.c:48-191 | the state after boot satisfies all of these |
| KernelInvariants.SendKeepsInv | src/kernel/message.c:44-140 | a send keeps all invariants, and leaves the sender running or blocked on exactly its destination |
| KernelInvariants.ReceiveKeepsInv | src/kernel/message.c:146-239 | a receive keeps all invariants |
| KernelInvariants.SendRecKeepsInv | src/kernel/message.c:295-327 | both halves of SEND_REC keep all invariants, although the first may already have blocked the caller and changed who is current |
| KernelSteps.InterruptKeepsInv | src/kernel/process.c:43-122 | an interrupt, during kernel activity or not, keeps all invariants |
| KernelSteps.UnholdKeepsInv | src/kernel/process.c:421-439 | repeating the held interrupts keeps all invariants |
| KernelSteps.ForkKeepsInv | src/kernel/system.c:89-121 | fork keeps all invariants if the parent is not blocked sending and nobody is queued on it |
| KernelSteps.ForkKeepsInvExactly | src/kernel/system.c:107-109 | and otherwise it breaks them: the copy shares the queue of its parent, or is queued nowhere |
| KernelSteps.ExitKeepsInv | src/kernel/system.c:213-276 | exit keeps all invariants if nobody is queued on the dying process |
| KernelSteps.ExitKeepsInvExactly | src/kernel/system.c:213-276 | and otherwise it breaks them: the queue outlives the process |
| KernelRuns.LockedExactlyOnCycle | src/kernel/message.c:81-91 | a send is refused with ERROR_LOCKED exactly if blocking the caller would make senders wait in a circle |
| KernelTheorems.NoDeadlock | src/kernel/message.c:81-91 | in no reachable state do blocked senders wait for each other in a circle |
| KernelTheorems.NobodySleepsBesideAMessage | src/kernel/message.c:99-225 | no reachable state has a receiver waiting although an admitted sender is queued on it or a blocked interrupt it admits is pending |
| KernelRuns.ReceivedIsPrefixOfSent | src/kernel/message.c:99-225 | over every run without exit of the sender, what was received is what was sent, in order and unaltered, but for at most one message the sender still holds |
| KernelRuns.StepArrives | src/kernel/message.c:99-195 | a message counts as received only if it lies in the receiver's buffer |
| KernelRuns.SendRecBlocks | src/kernel/message.c:295-327 | after the sending half of SEND_REC the receiving half finds nothing to take and can only block, so one buffer serves both |
| KernelTheorems.FirstComeFirstServed | src/kernel/message.c:170-196 | the receiver gets the message of the first admitted sender, which alone leaves the queue |
| KernelTheorems.ExitRemovesOnlyTheDead | src/kernel/system.c:250-273 | exit takes the process out of every queue and list, wherever it stands; all others keep order and fields |
| KernelTheorems.RunnableExactlyWhenListed | src/kernel/process.c:184-313 | in every reachable state an occupied entry is on the list of its class once if no flag blocks it and `schedule` has not taken it off, and on no list otherwise |
| KernelTheorems.UsersYield | src/kernel/process.c:129-313 | in every reachable state a user or IDLE runs only if no task or server is runnable |
| KernelTheorems.StrictPriorityExactly | src/kernel/process.c:129-238 | in every reachable state the head of the highest non-empty list runs, except exactly when a server runs while a task is ready |
| KernelPriority.PriorityIsLostExactly | src/kernel/process.c:200-212 | in every reachable state in which it runs, an event ends that exactly if it lets a server come onto the empty server list while a task stays ready |
| KernelTheorems.FirstServerOvertakes | src/kernel/process.c:205-212 | in any table, the exception arises whenever the first server becomes ready while tasks are |
| KernelOvertaking.OvertakingIsReachable | src/kernel/process.c:205-212 | a run from boot in which it arises: task and servers wait, an interrupt wakes the task, and it sends to a server |
| KernelTable.Kernel.Schedule | src/kernel/process.c:331-353 | on the links, with the tail as the other methods leave it, the head of the user list leaves it, and the hunter runs |
| KernelLinks.RotatedLinks | src/kernel/process.c:346-350 | the list the links form after those assignments, whatever entry the tail is |
| KernelLinks.RescheduleKeepsExactly | src/kernel/process.c:346-350 | they lose no process exactly if there is none, or there are several and the tail is right; then the head goes to the end |
| KernelSteps.ScheduleKeepsInv | src/kernel/process.c:331-353 | `schedule` keeps all invariants, with the user it takes off its list accounted for |
| KernelSchedule.ScheduleKeepsListedExactly | src/kernel/process.c:331-353 | after `schedule` everybody who can run is still on a ready list exactly if no user was ready; otherwise the head of the user list, and nobody else, is on none |
| KernelSchedule.AllAreListedBefore | src/kernel/process.c:184-313 | over every run from boot in which `schedule` is not called, everybody who can run is on a ready list |
| KernelSchedule.ScheduledUserStarves | src/kernel/process.c:331-353 | from any reachable state, after a call of `schedule` that finds a user ready that user never runs again, over every run, further calls included, until it exits |
| KernelRuns.NoInterruptIsLost | src/kernel/process.c:60-121 | whatever follows an interrupt, it is still held or blocked, or the task has received a hardware message since |
| KernelTheorems.UnholdIsInOrder | src/kernel/process.c:421-439 | unhold empties the held list and appends exactly the waiting tasks to the task list, in the order of their interrupts |
| KernelLinks.ChainIsUnique | src/kernel/message.c:81-91 | a chain of blocked senders that ends without meeting a process proves it unreachable |
| KernelEffects.CallExactly | src/kernel/message.c:44-328 | in every reachable state, in fields: a user is refused all but SEND_REC and all destinations but servers, and nobody sends to ANY or a vacant slot, without any effect but on the caller's own buffer; a send hands the stamped message over at once exactly if the destination waits, with nothing of its own pending, for ANY or for the caller, and otherwise leaves the caller last in its queue and the destination as it was; a receive takes the first queued message it admits, else a blocked interrupt it admits, else waits |
| KernelEffects.ReleasedByWhatItWaitsFor | src/kernel/message.c:99-111 | in every reachable state, for every event: a waiting process stops waiting only if the running process has sent it the message now in its buffer and it waited for ANY or for that process, or the hardware has and it waited for ANY or HARDWARE, or by exec or exit |
| KernelEffects.HardwareArrives | src/kernel/message.c:200-215 | in every reachable state, for every event: an interrupt is counted as received, once, only if the buffer holds a message from HARDWARE of type HARD_INT; one from a blocked interrupt is otherwise cleared, and any other has ended a wait for it |
| KernelEffects.InterruptExactly | src/kernel/process.c:43-122 | in fields: held once while the kernel is busy; otherwise delivered, the task last on the list of tasks, exactly if the task waits for ANY or HARDWARE with nothing pending, and blocked if not |
| KernelEffects.UnholdExactly | src/kernel/process.c:421-439 | in fields: exactly the tasks with a held interrupt get it, each once, as if it came then; no other process is concerned |
| KernelEffects.SystemExactly | src/kernel/system.c:89-276 | in fields: a new map clears NO_MAP, exec clears RECEIVING, a fork gives the vacant entry the parent's fields with NO_MAP, exit leaves the entry vacant; no other entry is concerned |
| KernelLists.ListsExactly | src/kernel/process.c:184-313 | in every reachable state, for every call: who joins which ready list at which end and who leaves it, all others keeping their order |
| HoleTable.Memory.constructor | src/mm/alloc.c:58-82 | all slots are linked, and free memory is one hole |
| HoleTable.Memory.AllocMem | src/mm/alloc.c:88-117 | the lowest hole that fits gives its bottom; NO_MEM, and no change, exactly if none fits |
| HoleTable.Memory.FreeMem | src/mm/alloc.c:123-164 | the block enters at its place in the sorted list and is merged; it fails exactly if no slot is left |
| HoleTable.Memory.MergeHole | src/mm/alloc.c:170-201 | the recursive mutator joins the first touching pair the counter lets it see |
| HoleTable.Memory.RemoveSlot | src/mm/alloc.c:207-226 | one hole's slot moves to the free slots; every slot stays on exactly one list |
| Holes.TakingTakesExactly | src/mm/alloc.c:88-117 | allocation removes exactly the returned interval from the free clicks, from the lowest fitting hole, and keeps the list sorted and disjoint |
| Holes.FreeingAddsExactly | src/mm/alloc.c:123-201 | giving back adds exactly its interval to the free clicks, whatever is merged |
| Holes.MergingKeepsClicks | src/mm/alloc.c:170-201 | merging never changes which clicks are free |
| Holes.FreeingCoalescesExactly | src/mm/alloc.c:170-201 | when a fully joined list stays fully joined, as a condition on the neighbours and the counter, both directions |
| Holes.MergeCounts | src/mm/alloc.c:170-201 | the recursion enters every hole up to the first pair that touches, which it joins, or the last hole; the counter goes up by the entries, and with the fifth, earlier calls included, it is 0 again and nothing is joined |
| Holes.FillingAGapLeavesTwoHoles | src/mm/alloc.c:191-193 | a concrete list that is not joined completely |
| MemoryManager.Manager.constructor | src/mm/main.c:105-133 | the table, counters and hole list after initialisation are the boot state of the runs |
| MemoryManager.Manager.SetReply | src/mm/main.c:70-81 | a reply becomes pending for one slot, nothing else |
| MemoryManager.Manager.DoFork | src/mm/fork_exit.c:34-141 | fork refuses without change, or fills the first free slot with a copy of the parent that has new memory and a fresh identifier |
| MemoryManager.Manager.FindPid | src/mm/fork_exit.c:96-119 | the unbounded search over identifiers ends, with the first one that no other slot holds or held last, as identifier or group |
| MemoryManager.Manager.ExitCleanup | src/mm/fork_exit.c:307-333 | the parent stops waiting with identifier and status pending as its reply, and the slot is free |
| MemoryManager.Manager.MmExit | src/mm/fork_exit.c:162-220 | memory is given back, the parent is told or a zombie remains, and all children pass to ORIGIN; it can only stop if the hole table is full |
| MemoryManager.Manager.MmWaitpid | src/mm/fork_exit.c:262-301 | the scan reports the first dead child asked about, else waits, says 0, or says ECHILD |
| MemoryManager.Manager.SendReplies | src/mm/main.c:55-62 | all pending replies, and only they, are sent, in slot order |
| MemoryManager.Manager.Serve | src/mm/main.c:39-63 | one turn of the main loop, which never stops in free_mem, does what the runs assume and keeps the invariants |
| MmSteps.SearchEnds | src/mm/fork_exit.c:101-119 | pigeonhole: at most twice as many identifiers as there are slots are tried in vain |
| MmSteps.TriedAreDistinct | src/mm/fork_exit.c:111-111 | within 50000 steps, wrap-around included, no identifier is tried twice |
| MmRuns.TurnKeepsInv | src/mm/main.c:39-63 | every request keeps parenthood, counters, the ledger of deaths, waiting, identifiers, pending replies and the division of memory |
| MmTheorems.RunKeepsInv | src/mm/main.c:39-63 | so does every run of requests |
| MmTheorems.BootIsConsistent | src/mm/main.c:105-133 | the state after initialisation satisfies all of these |
| MmTheorems.MemoryIsConserved | src/mm/fork_exit.c:54-190 | in every reachable state each click is in exactly one hole or belongs to exactly one living process, and giving back cannot fail |
| MmRuns.HoleTableNeverFull | src/mm/alloc.c:123-164 | there are always at least three fewer holes than process slots, so a slot is left |
| MmTiles.FirstHoleFits | src/mm/alloc.c:88-117 | since all processes are of one size, the first hole fits if any does |
| MmTheorems.NobodyIsForgotten | src/mm/fork_exit.c:186-333 | nobody waits beside a dead child it asked about, all others have their answers, every parent is alive, the count of slots is right, and identifiers are distinct |
| MmTheorems.EachDeathIsReportedOnce | src/mm/fork_exit.c:186-333 | the deaths not yet reported are exactly the zombies, over every run |
| MmReports.ReportsAreTold | src/mm/main.c:55-62 | over every run the deaths counted as reported are those whose identifier and status replies have carried to processes that waited, or asked to wait |
| MmReports.DeathsAreToldOnce | src/mm/fork_exit.c:186-333 | over every run from boot each death has been told by exactly one reply, or is held by exactly one slot |
| MmTheorems.ForkAllOrNothing | src/mm/fork_exit.c:34-141 | fork fails exactly for want of a slot or of a hole and then changes nothing, or makes one child with a fresh identifier |
| MmTheorems.RepliesAreAskedFor | src/mm/main.c:50-62 | over every run a process is sent at most one reply per request, besides the one that starts it |
| MmAnswers.ForkAnswers | src/mm/fork_exit.c:34-141 | in every reachable state, in fields: EAGAIN exactly for want of a slot, ENOMEM exactly for want of memory, and otherwise a child in the first free slot, with an identifier no other slot holds, which is answered 0 while the caller is answered that identifier; no other slot is concerned |
| MmAnswers.WaitAnswers | src/mm/fork_exit.c:262-301 | in every reachable state, in fields: the first dead child with the identifier or group asked for is told at once, and its slot is free; if none is dead, ECHILD if there is no such child, 0 with WNOHANG, and otherwise the caller waits; no other slot is concerned |
| MmAnswers.GroupsAreNeverFound | src/mm/fork_exit.c:272-283 | in every reachable state a wait for a process group is told ECHILD |
| MmAnswers.ExitAnswers | src/mm/fork_exit.c:162-220 | in every reachable state, in fields: the slot is free if the parent waits and a zombie with the status as a signed byte otherwise, and all children pass to ORIGIN; a slot that is no child and does not wait is as it was |
| MmAnswers.OtherAnswers | src/mm/main.c:50-52 | any other request is answered what its handler returned, and an exec that succeeds nothing; no other slot is concerned |
| MmAnswers.TurnSends | src/mm/main.c:54-62 | sending the pending replies changes no slot but for the mark that it has one |
| MmTheorems.ChildlessIsToldExactly | src/mm/fork_exit.c:280-301 | a childless caller hears ECHILD exactly if no freed slot still names it as parent of what it asks about |
| MmWaits.ChildlessCanWaitForever | src/mm/fork_exit.c:280-301 | a run from boot, fork, fork, exit, wait, wait, after which a childless process waits; whatever follows, it waits and is told nothing |
| MmWaits.ChildlessWaitsForever | src/mm/fork_exit.c:186-333 | over every run, a process other than ORIGIN that waits without children goes on waiting |
| MmWaits.TurnEndsWaitExactly | src/mm/fork_exit.c:196-217 | a request ends a wait exactly if it is an exit that leaves the waiting process a dead child, its own or, for ORIGIN, an adopted one; it is told identifier and status of that child |
| MmWaits.AnyDeathEndsTheWait | src/mm/fork_exit.c:186-333 | over every run, from the request to wait, for one child, a group or any, to the reply: the process waits and is told nothing up to the first request that leaves it a dead child, and is then told of that one |
| MmWaits.RightChildEndsTheWait | src/mm/fork_exit.c:196-217 | if all children there are and can come to be are among those asked about, for ORIGIN all processes, the one it is told of is, over every run |
| MmWaits.WrongChildCanEndTheWait | src/mm/fork_exit.c:196-204 | any living child that is not asked about, and does not itself wait, can end the wait at once |
| MmWaits.WrongChildIsReported | src/mm/fork_exit.c:196-204 | a run from boot, fork, fork, wait for the first child, exit of the second, in which the second is reported |
| TerminalQueue.Device.InputHandler | src/kernel/tty.c:811-974 | the loop takes all bytes until one is refused, and leaves the ring as if they were typed one by one |
| TerminalQueue.Device.InputOne | src/kernel/tty.c:824-971 | escapes, mappings, erase, kill, line ends, flow control, full queue and storing, for one byte |
| TerminalQueue.Device.BackOver | src/kernel/tty.c:513-544 | the last character leaves the ring, unless it ends a line or there is none |
| TerminalQueue.Device.InTransfer | src/kernel/tty.c:596-695 | the loop over ring and staging buffer gives the reader what an unstaged transfer would; after a hang-up every read succeeds |
| TerminalQueue.Device.HandleRead | src/kernel/tty.c:757-781 | a read in progress is served, and outside canonical mode may end early |
| TerminalQueue.Device.DoRead | src/kernel/tty.c:198-293 | a read is refused while one is in progress, if it wants nothing, or for a bad address; otherwise its minimum is set as VMIN and VTIME demand, and it is served from what is queued, or waits, or is given up if it must not wait |
| TerminalQueue.Device.InputCancel | src/kernel/tty.c:1049-1058 | the queue is empty, and no line is counted |
| TerminalQueue.Device.SetAttributes | src/kernel/tty.c:1064-1112 | queued characters are marked and the minimum is set as the settings, read from the word the code reads, demand |
| Terminal.InputKeepsOk | src/kernel/tty.c:811-974 | eot_count is the number of line ends in the queue, which never exceeds its size, after every byte |
| Terminal.ReadKeepsOk | src/kernel/tty.c:226-268 | and after every read |
| Terminal.SettingsKeepOk | src/kernel/tty.c:1049-1083 | and after cancelling and new settings |
| Terminal.ErasingSparesLines | src/kernel/tty.c:513-544 | no byte takes anything from a completed line |
| Terminal.KillLeavesLines | src/kernel/tty.c:878-887 | KILL leaves exactly the completed lines |
| Terminal.KillQueuesItself | src/kernel/tty.c:878-971 | KILL leaves the completed lines in the queue, and itself behind them exactly if ECHOE is set and there is room |
| Terminal.CanonicalRead | src/kernel/tty.c:596-781 | a canonical read, for every minimum: it waits while there are fewer lines than that, and otherwise gets the first line or its first n bytes, in order, or nothing if there is no line, and is answered once with the number of bytes |
| Terminal.RawRead | src/kernel/tty.c:596-781 | outside canonical mode, whatever is queued: a read that finds as many marked characters as the minimum takes what it can have of those up to the last marked one, ends of file apart, and is answered if it got all it wants or as many bytes as the minimum |
| Terminal.SettingsKeepLinesExactly | src/kernel/tty.c:1064-1100 | new settings leave the minimum at 1, the queue as it is, and unfinished text unfinished, each exactly if the bit tested is set, or VMIN, VTIME or the queue happen to make no difference |
| Terminal.CanonicalAfterSettingsExactly | src/kernel/tty.c:1064-1100 | after new settings in canonical mode readers wait for a line, and get it, exactly if the bit tested is set, or under a condition on VMIN, VTIME and the queue |
| Terminal.RawAfterSettingsExactly | src/kernel/tty.c:1064-1100 | after new settings outside canonical mode every reader gets what VMIN and VTIME promise exactly if the bit tested is clear, or under a condition on VMIN, VTIME and the queue |
| TerminalRuns.ReadingIsInvisible | src/kernel/tty.c:513-971 | in canonical mode, with settings that do not change and no character dropped for want of room: whenever and in whatever pieces readers read, what they got and what is queued together are what was typed, edited as one text |
| TerminalRuns.FullLineIsStuck | src/kernel/tty.c:933-941 | a full queue without a line end can be changed by erasing only, and is never read |
| TerminalTyping.CanonicalByteExactly | src/kernel/tty.c:824-971 | in bytes and settings: what any byte, typed in canonical mode, does to the queue: LNEXT, REPRINT, an escaped byte, CR and LF as mapped or dropped, ERASE, KILL with and without ECHOE, EOF, EOL, STOP and START |
| TerminalTyping.RawByteExactly | src/kernel/tty.c:824-971 | and what any byte does outside canonical mode |
| TerminalTyping.RefusedExactly | src/kernel/tty.c:933-939 | a byte stays with the device exactly if it is typed outside canonical mode, is to be queued, and there is no room |
| TerminalTyping.ModeExactly | src/kernel/tty.c:834-920 | which bytes stop and resume the output, and which escape the next one |
| TerminalTyping.LinesEndExactly | src/kernel/tty.c:889-969 | in canonical mode a byte completes a line exactly if it is LF once mapped, EOF or EOL, not escaped, no editing character of its own, and there is room; no other byte completes one |
| TerminalTyping.TypedLineIsComplete | src/kernel/tty.c:824-971 | ordinary bytes and then LF, CR with ICRNL, EOL or EOF complete exactly one line behind what is queued |
| TerminalTyping.TypedLineIsRead | src/kernel/tty.c:596-971 | with a minimum of 0 or 1 the next read that asks for enough gets what was queued and those bytes, with the LF or EOL, or without EOF, and is told their number |
| TerminalTyping.SleeperGetsTypedLine | src/kernel/tty.c:596-971 | so does a reader who was there before the line: it gets nothing before its end, and then all of it |
| TerminalTyping.ReadAsksExactly | src/kernel/tty.c:232-255 | outside canonical mode a read asks for the minimum of VMIN and VTIME exactly if that is in force, or the timer is in use and VMIN is 0 or nothing is queued |
| TerminalTyping.ReadAsksAfterSettingsExactly | src/kernel/tty.c:1088-1100 | after new settings it does exactly if the bit tested is clear, or that minimum is 1, or the timer is in use and no line is queued |
| TerminalTyping.HungUpAnswersAtOnce | src/kernel/tty.c:596-781 | once the terminal has hung up every read is answered at once, in both modes |
| TerminalTyping.StoppedForGoodExactly | src/kernel/tty.c:1102-1106 | settings without flow control leave stopped output stopped over every run that follows exactly if the bit tested is set |
| SectorMap.Disk.AllocSmapBit | src/fs/super.c:96-153 | exactly the n bits from the first clear bit become set, over bytes and sectors, and the sector of that bit is returned; it stops exactly if they do not fit |
| SectorMap.Disk.AllocImapBit | src/fs/super.c:54-90 | the first clear bit of the first sector is set and returned; 0, and no change, if that sector is full |
| SectorMap.Disk.MakeMap | src/fs/main.c:234-285 | the loops over bytes, sectors and bits mark bit 0, the root directory and cmd.tar, and nothing else; they stop exactly if the disk is too small |
| SectorMap.Disk.ReleaseRun | src/fs/link.c:101-151 | it stops exactly if some bit of the run is not set; otherwise exactly the bits of the run but those of a partly covered last byte become clear |
| SectorMap.AllAreFreedExactly | src/fs/link.c:140-151 | the whole run is freed exactly if it stays in its first byte or ends with a byte |
| SectorMap.DefaultFilesKeepOneSector | src/fs/link.c:104-151 | a file of the default size leaves one sector marked if it begins a whole number of file sizes behind the root directory, and cmd.tar exactly if the number of map sectors is 5 modulo 8 |
| SectorRuns.FilesStayApart | src/fs/super.c:96-153 | over every run of creating and deleting files of one size that begin on a grid of that size no sector belongs to two files and every sector of a file is marked, so no deletion stops |
| SectorRuns.StaysSoundExactly | src/fs/main.c:257-285 | the same in terms of the first bit of cmd.tar: it has to be where a file could begin; the place that meets it otherwise always fits and is always reached |
| SectorRuns.InstalledFileIsHit | src/fs/super.c:133-137 | the run in which it is not: as many files are created as places fit before it, the last is given its sectors, and deleting both stops the file system |
| SectorRuns.NewFileSystem | src/fs/main.c:176-285 | from the file system that mkfs_flyanx makes on, that holds over every run exactly if the number of map sectors is 1789 modulo 2048 |
| FileTransfer.File.Read | src/fs/read_write.c:93-145 | the bytes from the position on, as many as the chunks yield, and the new position and size |
| FileTransfer.File.Write | src/fs/read_write.c:93-145 | the bytes lie on the disk at the position, nothing outside the chunks' sectors changes, and position and size are right |
| FileTransfer.File.WriteThenRead | src/fs/read_write.c:93-145 | within the file's sectors a write of any length at any position returns its full length, and a read of the same place gives the same bytes |
| FileTransfer.FullYield | src/fs/read_write.c:101-137 | a transfer that its limit does not cut short yields all its bytes, whatever the chunks |
| FileTransfer.ReadsRunOn | src/fs/read_write.c:93-112 | a read yields the bytes up to the end of the file exactly if it asks for nothing, ends there anyway or begins in a later sector; all others yield more |
| FileTransfer.ReadsEnlarge | src/fs/read_write.c:132-140 | a read makes the file larger exactly if position and length together reach beyond its end |
| FileTransfer.WritesSpillOver | src/fs/read_write.c:93-126 | how many sectors behind the file a write of any length at any position passes over, and exactly when there are any |
| FileTransfer.CoveredIsWholeChunks | src/fs/read_write.c:104-108 | the loop passes over the number of sectors rounded up to a multiple of the chunk |
| FileTransfer.DefaultWritesSpillOver | src/kernel/table.c:167-167 | with the buffer of 1 MB: none, one, or all 2048 sectors of the next file, by where the write begins and ends |
| AlarmTask.Clock.CommonSetAlarm | src/kernel/clock.c:238-262 | the alarm is set and the scan finds the earliest of all |
| AlarmTask.Clock.DoClockInt | src/kernel/clock.c:134-171 | one scan fires and clears the due alarms and finds the earliest of the rest |
| AlarmTask.Clock.ServeSetAlarm | src/kernel/clock.c:98-112 | one turn of the clock task for a request, ticks counted first, is the step the runs assume |
| AlarmTask.Clock.ServeInterrupt | src/kernel/clock.c:98-112 | and so is one for an interrupt |
| AlarmTask.Clock.ClockHandler | src/kernel/clock.c:350-366 | ticks, of one interrupt at most 65535, are counted modulo 2^32, and the clock task is woken exactly if the earliest alarm is due |
| AlarmClock.RunKeepsInv | src/kernel/clock.c:134-262 | over every run next_alarm is never later than an armed alarm, and not 0 while there is one; if setting an alarm came last it is exactly the earliest |
| AlarmClock.StepKeepsInv | src/kernel/clock.c:238-262 | after an alarm is set next_alarm is exactly the earliest |
| AlarmClock.DueAlarmsGoOff | src/kernel/clock.c:142-170 | an alarm interrupt fires exactly the due alarms, leaves none due and the others standing; after a rescan next_alarm is exactly the earliest |
| AlarmClock.AlarmsGoOffExactly | src/kernel/clock.c:142-170 | for every process, in numbers: its alarm goes off once and is cleared exactly if it is set and not later than the clock, and stands otherwise |
| AlarmClock.InheritedGoesOff | src/kernel/clock.c:142-170 | a forked process goes off with its parent at the first interrupt that finds the alarm due |
| AlarmClock.ExitedStaysSilent | src/kernel/system.c:237-238 | over every run a process that has exited goes off no more unless an alarm is set for its slot or inherited there |
| AlarmClock.NoAlarmIsMissed | src/kernel/clock.c:355-366 | a tick that finds an alarm due wakes the clock task |
| AlarmClock.AlarmsGoOffOnce | src/kernel/clock.c:142-170 | over every run an alarm fires at most once for each time it is set or inherited |
| AlarmClock.AlarmsAreNotEarly | src/kernel/clock.c:134-262 | over every run from the start, however many ticks are lost, whatever goes off was asked for or inherited by its process, and comes at least as many true ticks later as were asked for, unless the request reached beyond the wrap |
| AlarmClock.OnTimeExactly | src/kernel/clock.c:134-262 | a request is answered early in no continuation exactly if it does not reach beyond the wrap |
| AlarmClock.EarlyFromStart | src/kernel/clock.c:134-262 | a run from the start to any reading of the clock, so that every request that reaches beyond the wrap can be made and answered early |
| AlarmClock.AlarmIsAheadExactly | src/kernel/clock.c:251-251 | an alarm lies ahead by what was asked exactly if the clock does not wrap before; it is lost in exactly one case |
| AlarmClock.TicksAreConserved | src/kernel/clock.c:105-107 | over every run uptime is the number of ticks, modulo 2^32, exactly if those beyond 16 bits add up to a multiple of that; within 2^32 ticks, exactly if no interrupt found 65535 or more lost |
| ExecStack.BuildStack | src/lib/posix/_execv.c:31-58 | the image of pointers and strings is built, or refused |
| ExecStack.Relocate | src/mm/exec.c:126-135 | the loop turns the image for one address into the image for another, and counts the arguments |
| ExecStack.ExecArguments | src/mm/exec.c:64-135 | from execv to the relocated buffer: refused exactly if the image would not be smaller than ARG_MAX, otherwise the buffer read at its new address decodes to the same strings, and argc is their number |
| ExecImage.ImageMeansArguments | src/lib/posix/_execv.c:49-58 | following the pointers of an image gives back the arguments in order |
| ExecImage.AcceptedExactly | src/lib/posix/_execv.c:36-54 | the checks refuse exactly the images that would not be smaller than ARG_MAX |
| NumberFormat.Int2Ascii | src/lib/syslib/kprintf.c:161-166 | the digits of every 32-bit value in base 8, 10 or 16 fit the 12-byte buffer and end at its last place but one |
| NumberFormat.DigitsDenote | src/lib/syslib/kprintf.c:161-166 | the digits parse back to the value |
| NumberFormat.PrintNumber | src/lib/syslib/kprintf.c:134-200 | a conversion emits the sign, the digits up to the precision, which may be negative, and the fill, in the order of the flags |
| NumberFormat.StringPrint | src/lib/syslib/kprintf.c:190-200 | text, sign and fill are emitted as the field demands |
| NumberFormat.FieldIsFilled | src/lib/syslib/kprintf.c:190-200 | exactly the larger of the width and what the digits shown and the sign need is emitted |
| NumberFormat.FieldIsAligned | src/lib/syslib/kprintf.c:190-200 | where number, sign and fill stand: number first with -, otherwise last, its sign beside it in front of blanks left of both, or in front of the zeros |
| NumberFormat.FieldDenotes | src/lib/syslib/kprintf.c:185-200 | what the field denotes for every width, precision and flags: the number without the digits cut off, with the zeros put behind it |
| NumberFormat.FieldDenotesExactly | src/lib/syslib/kprintf.c:185-200 | the printed field denotes the number exactly if it is 0, or as many digits are cut off by the precision as zeros are put behind by - and 0, and those digits are zeros |

## Left out

* Kernel: when the clock calls `schedule`; a call is an event that can come at any time. Through a tail that is still NIL,
  which it is until a second user becomes ready, the code writes to address 0; that write is left out.
* Kernel: bounds checks on message buffers, stack guards, the accounting of billed time, and register frames.
* Kernel: the memory a message pointer designates is one buffer per process; a process does not read it while it is blocked.
* Kernel: requests to the system task arrive as events allowed while that task runs; in the runs, exit is of a process on
  which nobody is queued, and fork by a parent whose request has been received and on which nobody is queued, since the
  invariants do not survive the others.
* Memory manager: the contents of memory that fork copies, loading of program files, and exec, which keeps a process's
  memory and so appears only as a request that changes nothing.
* Memory manager: addresses beyond 32 bits, and requests by tasks, whose negative numbers would index in front of the table.
* Terminal: the screen, so echo, its length field, reprinting and cursor positions; timers (VTIME) apart from the minimum
  they set; the order of bits in a queued character.
* File system: paths, directories, inodes, open files and permissions; device numbers. The disk is an array of sectors.
* SectorMap.Disk.AllocSmapBit: the number of the first data sector is taken to be at least 2, since the code uses 0 for
  "not found yet".
* SectorMap.Disk.MakeMap: disks of less than 1 MB, on which the size test wraps around, and of more than 183 GB, whose tables
  reach over the place of cmd.tar.
* SectorMap.Disk.ReleaseRun: the map is taken not to be the last thing on the disk, since the code may read the sector behind it.
* FileTransfer.File.Write: bytes of a touched sector outside the written range are not described, since the code overwrites
  them with what its buffer holds.
* AlarmTask.Clock.DoClockInt: watchdog functions are recorded but taken not to set alarms, since the scan would overwrite
  one a watchdog sets for its own process.
* Clock: the wake-up time of the terminal task, millisecond delays, and the time of day.
* ExecStack.ExecArguments: ends with the relocated buffer; the code then copies another buffer to the new program's stack.
* NumberFormat.PrintNumber: the scanning of the format string, and conversions of strings and single characters.
* Boot code, interrupt controllers, disk and keyboard hardware, the FLY server, the shell and the library wrappers.
