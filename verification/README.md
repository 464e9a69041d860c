# A verified model of perf's algorithmic core

perf records scheduler, lock and allocation events of a running Linux system and reports on
them. The code below its commands is a small library of data structures and machine-word
algorithms shared with the kernel. This project models the parts of that code with the most
state and branching, and proves what they are for.

- **Red-black trees** (`RbTree*.dfy`). `rb_node` and `rb_root` are classes whose pointers are
  updated in place, step by step as in the C code. A ghost tree and a ghost in-order sequence
  of nodes describe the pointers. Insertion and removal keep the five red-black properties and
  change the in-order sequence by exactly the one node; the walks visit the in-order or the
  post-order sequence; a tree used as a sorting device gives the one stable descending sort.
- **`perf sched replay`** (`Replay*.dfy`). The recorder turns events into one list of run,
  sleep and wakeup atoms per task and pairs sleeps with wakeups through semaphores. Every
  recording is *sound*: a numbering of the atoms exists under which each list increases and
  each sleep comes after its wakeup. What each task's list is, with the semaphores, is said from
  the list of events alone (`ReplayEvents.dfy`). For every interleaving of the replaying
  threads and the main thread: no run is ever stuck, rounds are separated as by a barrier, all
  semaphores are back at zero between rounds, and every run ends within a stated number of
  steps after the asked number of rounds. `ReplayRounds.Replay` joins recording, the closing
  ring of wakeups and replaying for every list of events and every number of rounds.
- **`perf sched latency`** (`Latency.dfy`, `LatencyEvents.dfy`). Each task's totals are those of
  its list of work atoms at every point of every recording, and merging tasks by name adds the
  totals up. What a task's own events say of its waits is defined apart from the lists; the
  figures in the report, per task and per name, are those. Both reports fail exactly if the
  clock of a CPU goes back from one switch to the next, a condition on the events
  (`SwitchOrder.dfy`).
- **`perf lock`** (`Lock.dfy`). A state machine per thread and lock. Which locks are discarded,
  when the assertion fires, and the state of every other sequence follow from the events alone.
  All waiting times, all counters and the histogram of bad sequences in the report are those
  that the list of events says, for every list of events.
- **`perf kmem`** (`Kmem.dfy`). The tables per pointer and per call site tell exactly what the
  recording says, and their sums agree.
- **Ring buffer** (`RingBuffer.dfy`, `RingEvents.dfy`). Reading a memory-mapped ring with wrapping 64-bit
  positions loses and repeats nothing. The producer refuses a byte exactly when the ring is
  full by the published tail; what is in the file is a function of the offered bytes and the
  reads, also when bytes are produced between the steps of a read. From a backward ring a read
  takes the events that the kernel has put there, byte for byte.
- **x86 routines**: the one's complement checksum with its carry chains (`Checksum.dfy`),
  `memmove` for every overlap (`Memmove.dfy`), the instruction decoder (`Insn*.dfy`) and the
  command line scanner (`Cmdline.dfy`). The decoder's class refines a function of its state
  (`InsnSteps.dfy`) in every state and order of calls. On a new instruction that function is
  proved against a description of instructions on the code alone (`InsnCode.dfy`,
  `InsnRight.dfy`), also when the code ends inside a prefix (`InsnCut.dfy`). `InsnFormat.dfy`
  starts from the assembler's side: operands, immediates and prefixes put into bytes by the Intel
  manual come back from the decoder.
- **Bit routines**: population counts (`Hweight.dfy`), bit search (`FindBit.dfy`), bitmaps
  (`Bitmap.dfy`) and their printed form, parsed back (`BitmapText.dfy`).
- `Machine.dfy` holds the machine types and constants that several of these share.

The model follows the code where that differs from its comments or from what one might expect:

- The kernel comment asks for even lengths of all but the last checksum fragment; the checksum
  itself is right for every length and every alignment, and only joining fragments needs it.
- The decoder's length is the number of bytes it consumed. It is the sum of the field sizes
  unless a second immediate byte is stored over the second half of a two-part immediate.
  `InsnCode.Overwritten` is that case, a condition on the code; `InsnCode.OverwrittenIs` and
  `Insn.OverwrittenLength` give an input of ten bytes.
- The decoder counts an immediate as decoded as soon as a variable-size or far pointer immediate
  is there, also if the buffer then ends before the second immediate. `InsnCode.CutOff` is that
  case; `InsnCode.CutOffIs` and `Insn.CutOffComplete` give an input of five bytes. An instruction
  is complete exactly if it is all there or cut off like that.
- Both inputs need attribute tables of their own. In arch/x86/lib/x86-opcode-map.txt the only
  opcode with two immediates is `ENTER Iw,Ib`; `InsnCode.EnterWhole` shows for all tables with
  second immediates only after ones of two bytes that neither happens, and `Insn.Insn.GetLength`
  then has the plain form of both properties.
- When the code ends inside a VEX or EVEX prefix, the decoder takes the prefix's first byte for
  an opcode and scans for prefixes again. It can then count the instruction as complete.
  `InsnCut.CutFits` is the exact condition; `InsnCut.CutExampleIs` and `Insn.CutPrefixComplete`
  give an input of two bytes, C4 E1. The shipped map says of them what the input needs: a VEX
  prefix, a byte that is no prefix, and no VEX opcode C4 without a mandatory prefix.
- The decoder takes the width of the operands of an EVEX instruction from the top bit of the last
  prefix byte, where the Intel manual has it in the byte before. `InsnFormat.VexBack` shows that
  the width is right exactly if the two bits agree; `InsnFormat.WideLost` gives an input. The
  opcodes of the shipped map with an EVEX prefix have no immediate that depends on the width.
- A read range longer than the ring is dropped with a warning, and the reader catches up.
- The release of the last recursive reader leaves its sequence in place with a count of zero.

Arithmetic that wraps in C wraps here where it can matter: 64-bit ring positions and time
differences, the 64-bit accumulator with carry, 32- and 16-bit folds, the `short` CPU number.
Other counters are unbounded.

## Model

| member | source | states |
|---|---|---|
| RbTreeModel.ZippedConsistent | tools/lib/rbtree.c:26-39 | in every tree of the model a child's parent pointer names the node that holds it, in both directions |
| RbTreeHeap.ChangeChild | tools/include/linux/rbtree_augmented.h:123-134 | the one pointer that leads to a subtree, in its parent or in the root, is redirected and no other |
| RbTreeHeap.RotateSetParents | tools/lib/rbtree.c:61-69 | the new top takes the old top's parent, colour and incoming pointer, and the old top hangs below it |
| RbTreeInsert.FlipBalance | tools/lib/rbtree.c:95-115 | the colour flip moves the only possible red-red pair two levels up and keeps all black counts |
| RbTreeInsert.OutsideBalance | tools/lib/rbtree.c:142-157 | one rotation at the grandparent ends every violation |
| RbTreeInsert.InsideBalance | tools/lib/rbtree.c:117-157 | two rotations end every violation when the node is the inner grandchild |
| RbTreeInsert.InsertColor | tools/lib/rbtree.c:71-194 | from a red-black tree with one red leaf linked in, the result is a red-black tree over the same in-order sequence, with consistent pointers |
| RbTreeErase.Case1Balance | tools/lib/rbtree.c:214-233 | a red sibling is rotated away; the short path stays short by one and its new sibling is black |
| RbTreeErase.Case2Balance | tools/lib/rbtree.c:234-264 | a colour flip ends at a red parent or the root, and else leaves the parent's path short by one |
| RbTreeErase.Case34Balance | tools/lib/rbtree.c:265-307 | two rotations make all paths even when only the near nephew is red |
| RbTreeErase.Case4Balance | tools/lib/rbtree.c:287-307 | one rotation makes all paths even when the far nephew is red |
| RbTreeErase.EraseColor | tools/lib/rbtree.c:200-360 | from a tree whose paths through one place are one black node short, the result is a red-black tree over the same in-order sequence |
| RbTreeSplice.ExciseZipped | tools/include/linux/rbtree_augmented.h:147-171 | taking out a node with at most one child closes the gap with that child |
| RbTreeSplice.ExciseBalance | tools/include/linux/rbtree_augmented.h:147-171 | all paths stay even unless a black leaf was taken out, which leaves just its place one short |
| RbTreeSplice.TakeOver | tools/include/linux/rbtree_augmented.h:171-232 | taking out the successor and letting it stand in the node's place is the same as taking out the node |
| RbTreeSplice.EraseSingle | tools/include/linux/rbtree_augmented.h:147-171 | removal of a node with at most one child removes exactly it from the in-order sequence and leaves a red-black tree |
| RbTreeSplice.EraseDouble | tools/include/linux/rbtree_augmented.h:171-232 | the same for a node with two children, whose successor takes its place, its colour and its links |
| RbTreeSplice.Erase | tools/lib/rbtree.c:389-395 | for every node of every red-black tree, removal gives a red-black tree on the in-order sequence without that node |
| RbTreeLink.LinkNode | tools/include/linux/rbtree.h:79-86 | the node becomes a red leaf at the place found and enters the in-order sequence there |
| RbTreeLink.FindPlace | tools/perf/builtin-kmem.c:1225-1242 | the descent ends at the one place between all nodes the new one goes after and all it goes before |
| RbTreeLink.Insert | tools/perf/builtin-kmem.c:1218-1246 | search, link and rebalance put the node at that place of the in-order sequence and leave a red-black tree |
| RbTreeWalk.First | tools/lib/rbtree.c:413-423 | the first node of the in-order sequence, or none |
| RbTreeWalk.Last | tools/lib/rbtree.c:425-435 | the last node of the in-order sequence, or none |
| RbTreeWalk.Next | tools/lib/rbtree.c:437-466 | the in-order successor from any node; none at the end and for a node outside any tree |
| RbTreeWalk.Prev | tools/lib/rbtree.c:468-494 | the in-order predecessor from any node; none at the start and for a node outside any tree |
| RbTreeWalk.NextThenPrev | tools/lib/rbtree.c:437-494 | a step back undoes a step forward, and only the last node has no step forward |
| RbTreeWalk.InOrderWalk | tools/lib/rbtree.c:413-466 | first and repeated next visit every node once, in order |
| RbTreeWalk.Replace | tools/lib/rbtree.c:496-510 | the new node stands in the victim's place; order, shape and colours stay and all pointers agree |
| RbTreeWalk.LeftDeepest | tools/lib/rbtree.c:512-522 | the first node of the subtree's post-order |
| RbTreeWalk.NextPostOrder | tools/lib/rbtree.c:524-540 | the next node of the tree's post-order, or none |
| RbTreeWalk.FirstPostOrder | tools/lib/rbtree.c:542-548 | the first node of the tree's post-order, or none |
| RbTreeWalk.PostOrderWalk | tools/lib/rbtree.c:524-548 | first and repeated next visit the post-order sequence |
| RbTreeWalk.PostPlaces | tools/lib/rbtree.c:524-548 | the post-order sequence holds every node exactly once |
| RbTreeWalk.ParentLater | tools/lib/rbtree.c:524-548 | every node is visited before its parent, and the root last |
| RbTreeHeight.PathBounds | tools/lib/rbtree.c:26-39 | no path is longer than twice the black count plus one, and none shorter than the black count |
| RbTreeHeight.SizeBound | tools/lib/rbtree.c:26-39 | a tree of black count b has at least 2^b - 1 nodes |
| RbTreeHeight.SearchBound | tools/lib/rbtree.c:26-39 | the longest path is at most twice the shortest, and 2^height is at most (nodes + 1)^2 |
| RbTreeSort.CmpMeans | tools/perf/builtin-kmem.c:1232-1236 | the comparison is positive exactly if the first key that tells the two apart is larger for the first, and zero exactly if no key does |
| RbTreeSort.CmpTransitive | tools/perf/builtin-kmem.c:1232-1236 | the chain of sort keys is a transitive order, strict if one of its steps is |
| RbTreeSort.SortUnique | tools/perf/builtin-kmem.c:1248-1263 | there is only one descending stable arrangement of an input |
| RbTreeSort.InsertSorts | tools/perf/builtin-kmem.c:1238-1241 | after its equals and before what is smaller is the place that keeps the arrangement descending and stable |
| RbTreeSort.SortInsert | tools/perf/builtin-kmem.c:1218-1246 | inserting keeps the tree the sort of all nodes inserted so far |
| RbTreeSort.MoveFirst | tools/perf/builtin-kmem.c:1254-1262 | one step takes the first node of one tree into the other |
| RbTreeSort.SortResult | tools/perf/builtin-kmem.c:1248-1263 | the first tree ends empty and the second has its nodes, by the keys the largest first, equal ones in their old order |
| ReplayTrace.AppendSound | tools/perf/builtin-sched.c:259-277 | adding an atom without a semaphore keeps a recording sound |
| ReplayTrace.WithRunTime | tools/perf/builtin-sched.c:287-308 | joining consecutive runs keeps the task's running time |
| ReplayTrace.PairRanked | tools/perf/builtin-sched.c:310-335 | a new wakeup and the sleep it pairs with fit into the numbering of all atoms |
| ReplayTrace.PairPaired | tools/perf/builtin-sched.c:310-335 | every semaphore keeps exactly one sleep and one wakeup, the wakeup numbered first |
| ReplayTrace.PerfSched.AddRun | tools/perf/builtin-sched.c:287-308 | a run is appended, or joined with a run at the end, and counted as such; soundness and running time are kept |
| ReplayTrace.PerfSched.AddWakeup | tools/perf/builtin-sched.c:310-335 | the wakeup pairs with the sleep at the end of another task exactly if that is unpaired; every wakeup is counted once, by what it found |
| ReplayTrace.PerfSched.AddSleep | tools/perf/builtin-sched.c:337-345 | a sleep without a semaphore is appended and counted |
| ReplayTrace.PerfSched.Register | tools/perf/builtin-sched.c:347-390 | a known pid keeps its task; a new one gets a task that starts asleep; other pids keep theirs |
| ReplayTrace.PerfSched.WakeupHandler | tools/perf/builtin-sched.c:711-731 | the recording after the event, and that it is sound |
| ReplayTrace.PerfSched.SwitchHandler | tools/perf/builtin-sched.c:733-777 | the recording after the event; time going backwards on a CPU fails and changes nothing; an unknown CPU is passed over |
| ReplayTrace.PerfSched.ForkHandler | tools/perf/builtin-sched.c:779-808 | both tasks are known afterwards if both threads were found |
| ReplayTrace.PerfSched.Record | tools/perf/builtin-sched.c:711-808 | every recording is sound, and is what its events say one by one up to the first that fails |
| ReplayTrace.PerfSched.AddCrossTaskWakeups | tools/perf/builtin-sched.c:405-418 | every task gets one more atom, which wakes the next task, the last one the first; the earlier atoms stay, but for the semaphore of a last sleep that had none; the recording stays sound |
| SwitchOrder.DistanceIsMod | tools/perf/builtin-sched.c:757-766 | the signed 64-bit difference of two times is negative exactly if the second lies before the first on the clock, and else is how far it is behind it |
| SwitchOrder.OrderNext | tools/perf/builtin-sched.c:757-766 | a recording stays in order with one more switch exactly if that does not go back from the last one on its CPU with a nonzero time |
| SwitchOrder.SortedInOrder | tools/perf/builtin-sched.c:757-766 | times that never decrease and stay below 2^63 are in order |
| ReplayEvents.DeedsNext | tools/perf/builtin-sched.c:310-335 | one more event changes nothing of what a task did before, except that a wakeup by another task is what the sleep it is in waits for |
| ReplayEvents.WakeupTold | tools/perf/builtin-sched.c:711-731 | a wakeup goes to the task that wakes; it is paired exactly if since it last left a CPU the other task has neither woken anyone nor been woken |
| ReplayEvents.SwitchTold | tools/perf/builtin-sched.c:733-777 | a switch that does not go back adds a run, as long as since the last switch on the CPU, and a sleep to the task that leaves; one that goes back fails |
| ReplayEvents.ForkTold | tools/perf/builtin-sched.c:779-808 | a fork only makes both tasks known, the parent first |
| ReplayEvents.FromEvents | tools/perf/builtin-sched.c:711-808 | for every list of events: the recording fails exactly if time goes back on a CPU; else the tasks are the pids in the order in which events name them, and each list is what the events say of its pid, atom by atom with times, lengths, wakees and semaphores |
| ReplayEvents.Failed | tools/perf/builtin-sched.c:763-766 | a recording that fails holds the events before the first that goes back |
| ReplayEvents.RunTimeFromEvents | tools/perf/builtin-sched.c:287-308 | a task's running time is the sum of its stays on a CPU |
| ReplayEvents.SortedNeverFails | tools/perf/builtin-sched.c:757-766 | a recording in time order never fails |
| ReplayRun.StepCounts | tools/perf/builtin-sched.c:420-444 | each semaphore counts its wakeups passed less its sleeps passed |
| ReplayRun.Unblocked | tools/perf/builtin-sched.c:420-444 | while an unfinished task is blocked, the chain of awaited wakeups leads to a task that can move |
| ReplayRun.RunCounts | tools/perf/builtin-sched.c:420-444 | the counts hold in every state of every interleaving |
| ReplayRun.NoDeadlock | tools/perf/builtin-sched.c:420-444 | every state of every interleaving is finished or can move, and a finished one has all semaphores at zero |
| ReplayRun.SoundSems | tools/perf/builtin-sched.c:310-335 | the semaphores that the atoms of a sound recording name are just the paired ones |
| ReplayRun.CrossedStuck | tools/perf/builtin-sched.c:420-444 | two tasks that each sleep before they wake the other cannot move, so that soundness is needed |
| ReplayRounds.BeginInv | tools/perf/builtin-sched.c:564-593 | the state before the threads are created meets the invariant |
| ReplayRounds.MainInv | tools/perf/builtin-sched.c:595-646 | every step of the main thread keeps the invariant |
| ReplayRounds.ThreadInv | tools/perf/builtin-sched.c:520-562 | every step of a replaying thread keeps the invariant |
| ReplayRounds.NotStuck | tools/perf/builtin-sched.c:520-646 | in every state of the invariant some thread can move until the last round is over |
| ReplayRounds.ReplayInv | tools/perf/builtin-sched.c:520-646 | the invariant holds in every state of every interleaving of all rounds |
| ReplayRounds.Barrier | tools/perf/builtin-sched.c:520-646 | while one task works on its atoms, every other has finished as many rounds or one more |
| ReplayRounds.RoundEnds | tools/perf/builtin-sched.c:595-646 | between rounds every sleep semaphore is zero already, and so is every ready and done semaphore that is re-initialised |
| ReplayRounds.NeverStuck | tools/perf/builtin-sched.c:520-646 | every state of every run can move or is the end after the asked number of rounds |
| ReplayRounds.RunTicks | tools/perf/builtin-sched.c:520-646 | the number of steps taken is read off the position of the threads |
| ReplayRounds.ReplayEnds | tools/perf/builtin-sched.c:520-646 | every run ends within a stated bound, and one that cannot go on has done all rounds |
| ReplayRounds.SoundEnds | tools/perf/builtin-sched.c:520-646 | of every sound recording and for every number of rounds, every replay ends within the bound and is never stuck |
| ReplayRounds.Replay | tools/perf/builtin-sched.c:1843-1876 | for every list of events and every number of rounds: there is a replay exactly if time goes back on no CPU; the tasks are then those that the events say, with the ring of wakeups added, the recording is sound, and every replay of these tasks, with the semaphores that their atoms name, ends; else the tasks are those of the events before the first that goes back |
| Latency.SummaryConcat | tools/perf/builtin-sched.c:1692-1704 | the totals of two lists joined are the sums and the larger maximum |
| Latency.OutAccount | tools/perf/builtin-sched.c:905-925 | a task switched out adds an atom that changes no total |
| Latency.RuntimeAccount | tools/perf/builtin-sched.c:927-939 | running time goes to the last atom and to the total alike |
| Latency.WakeupAccount | tools/perf/builtin-sched.c:1077-1136 | a wakeup changes no total, and an out-of-order one is not stamped |
| Latency.InAccount | tools/perf/builtin-sched.c:941-970 | switching in adds one delay to count, sum and maximum, and the time of the maximum is that of an atom attaining it |
| Latency.MergeAccount | tools/perf/builtin-sched.c:1692-1704 | merged totals and time of the maximum are those of the joined list |
| Latency.WorkAtoms.AddSchedOut | tools/perf/builtin-sched.c:905-925 | the new list, with totals that agree with it |
| Latency.WorkAtoms.AddRuntime | tools/perf/builtin-sched.c:927-939 | the new list, with totals that agree with it |
| Latency.WorkAtoms.AddSchedIn | tools/perf/builtin-sched.c:941-970 | the new list in all four cases: none, not waiting, woken after switch-in, and a measured delay; totals agree with it |
| Latency.WorkAtoms.Merge | tools/perf/builtin-sched.c:1692-1704 | the lists joined, the merge counted, totals that agree |
| Latency.Sched.SwitchHandler | tools/perf/builtin-sched.c:972-1040 | all lists after the event; only a switch back in time fails, after noting the time |
| Latency.Sched.RuntimeHandler | tools/perf/builtin-sched.c:1042-1075 | all lists after the event; an unknown task is met as runnable first |
| Latency.Sched.WakeupHandler | tools/perf/builtin-sched.c:1077-1136 | all lists after the event, an unknown task being met as sleeping first, and the counts of wakeups to stamp and of those out of order |
| Latency.Sched.Process | tools/perf/builtin-sched.c:972-1136 | after every recording each task's totals agree with its list, and the lists are what the events say up to the first that fails |
| Latency.GatheredSums | tools/perf/builtin-sched.c:1674-1725 | the totals of all lists of one name joined are the totals added up task by task |
| Latency.MergeWorkAtoms | tools/perf/builtin-sched.c:1674-1710 | one task is merged into the record of its name or becomes that record |
| Latency.MergeLat | tools/perf/builtin-sched.c:1712-1725 | one record per name remains; its totals are the sums over all tasks of that name and it counts the tasks merged into it |
| LatencyEvents.AllTell | tools/perf/builtin-sched.c:905-1136 | after every recording without a failure, each task's list holds the waits that its own events say, and its last atom tells whether and since when it sleeps or waits |
| LatencyEvents.WakeupsCounted | tools/perf/builtin-sched.c:1077-1136 | the stamped wakeups are those that find their task asleep, the unordered ones those from before it went to sleep |
| LatencyEvents.FailsOnBack | tools/perf/builtin-sched.c:988-998 | the recording fails exactly if the clock of a CPU goes back from one switch to the next, as a condition on the events |
| LatencyEvents.SortedNeverFails | tools/perf/builtin-sched.c:988-998 | a recording in time order never fails |
| LatencyEvents.AccountReports | tools/perf/builtin-sched.c:941-970 | totals that agree with a list are number, sum and longest of its finished waits, with the end of one that long |
| LatencyEvents.WaitsFromEvents | tools/perf/builtin-sched.c:905-1136 | number, sum, longest and end of a longest of the finished waits, and the running time, are those of the task's events |
| LatencyEvents.Latencies | tools/perf/builtin-sched.c:972-1136 | there is a report exactly if no clock goes back; it has just the tasks heard of, each with its name and the figures that its events say, and counts the wakeups that its events say |
| LatencyEvents.GatheredTell | tools/perf/builtin-sched.c:1674-1710 | what is gathered under a name holds the waits and running times of all tasks of that name |
| LatencyEvents.Descending | tools/perf/builtin-sched.c:860-884 | the tasks in the order of their tree, the highest number first |
| LatencyEvents.LatenciesByName | tools/perf/builtin-sched.c:1712-1736 | from the events to the report by name: one record for each name of a task heard of, with the number of its tasks and the figures of all their waits |
| Lock.SumBound | tools/perf/builtin-lock.c:467-528 | the waiting times add up to at most their number times the longest |
| Lock.AverageBelowMax | tools/perf/builtin-lock.c:524 | the average wait never exceeds the longest |
| Lock.EffectKeeps | tools/perf/builtin-lock.c:395-642 | each transition moves the counters of the lock as it moves the number of threads in each state |
| Lock.NextInv | tools/perf/builtin-lock.c:395-642 | every event keeps the accounting invariant over all locks and threads |
| Lock.RunInv | tools/perf/builtin-lock.c:395-642 | the invariant holds after every recording |
| Lock.FateFromEvents | tools/perf/builtin-lock.c:395-642 | a lock is discarded exactly if one of its events did not fit after the thread's earlier ones, and the assertion fires exactly at a second release of one read acquisition |
| Lock.SeqFromEvents | tools/perf/builtin-lock.c:395-642 | on a lock all of whose events have fitted every sequence is in the state that its own last three events say: contended just after asking and finding contention, and then with the time of the contended event |
| Lock.HistoryFromEvents | tools/perf/builtin-lock.c:395-642 | what a transition measures is what the list of events says: the gap between contended and acquired events, and a nested read |
| Lock.UnderWay | tools/perf/builtin-lock.c:395-642 | the sequences contended or acquiring are those of the threads whose last events say that they wait or ask |
| Lock.FlagBits | tools/perf/builtin-lock.c:388-393 | the two flags are bits 0 and 1 |
| Lock.CountersFromEvents | tools/perf/builtin-lock.c:395-642 | of every lock, the acquisitions begun and completed, contentions, releases, read locks and try locks are the numbers of events that count as such after the thread's own earlier events |
| Lock.BadHistFromEvents | tools/perf/builtin-lock.c:452 | the histogram counts, by kind, the events that did not fit |
| Lock.WaitsFromEvents | tools/perf/builtin-lock.c:493-524 | total, longest, shortest and average wait of every lock are those of the contended-to-acquired gaps of the events |
| Lock.PlainWait | tools/perf/builtin-lock.c:493-503 | in time order every gap is the plain difference of the two times |
| Lock.Accounting | tools/perf/builtin-lock.c:395-642 | after every list of events, per lock: the waiting times are those of the gaps of the events and the average is at most the longest; every counter is the number of its events; while all events of the lock have fitted, contentions are the gaps and the threads that wait, and acquisitions begun and nested reads are those completed and the threads that ask or wait; the histogram counts the events that did not fit by kind, one for each lock discarded |
| Lock.Frozen | tools/perf/builtin-lock.c:395-642 | nothing about a discarded lock changes for the rest of the run |
| Lock.Report.FindLock | tools/perf/builtin-lock.c:313-343 | the lock's record, a new one if it was not known |
| Lock.Report.GetSeq | tools/perf/builtin-lock.c:359-378 | the thread's sequence for the lock, a new one if there was none |
| Lock.Report.AcquireHandler | tools/perf/builtin-lock.c:395-465 | the transition of the state machine, in every state and for every flag |
| Lock.Report.AcquiredHandler | tools/perf/builtin-lock.c:467-528 | the transition of the state machine, in every state |
| Lock.Report.ContendedHandler | tools/perf/builtin-lock.c:530-583 | the transition of the state machine, in every state |
| Lock.Report.ReleaseHandler | tools/perf/builtin-lock.c:585-642 | the transition of the state machine, in every state |
| Lock.Report.Process | tools/perf/builtin-lock.c:395-642 | the report after a recording is the state the accounting is proved about |
| Kmem.Short | tools/perf/builtin-kmem.c:226 | a CPU number as a `short`: congruent to it modulo 2^16 and in range, so that it is the number itself below 2^15 |
| Kmem.SumPut | tools/perf/builtin-kmem.c:68-151 | changing one entry changes a table's sum by the difference |
| Kmem.TellsPtr | tools/perf/builtin-kmem.c:68-239 | after each event the table of pointers holds the pointers allocated so far, each with its hits, bytes, last call site, last CPU and frees on another CPU |
| Kmem.TellsSite | tools/perf/builtin-kmem.c:111-239 | the same for the table of call sites, with frees counted at the site of the pointer's last allocation |
| Kmem.Slab.InsertAlloc | tools/perf/builtin-kmem.c:68-109 | the pointer's entry grows or starts with one hit, and takes the new site and CPU |
| Kmem.Slab.InsertCaller | tools/perf/builtin-kmem.c:111-151 | the call site's entry grows or starts with one hit |
| Kmem.Slab.AllocHandler | tools/perf/builtin-kmem.c:153-170 | both tables and the totals after the event; both tables add up to the totals |
| Kmem.Slab.AllocNodeHandler | tools/perf/builtin-kmem.c:172-186 | the same, and an allocation on another node than the CPU's is counted |
| Kmem.Slab.FreeHandler | tools/perf/builtin-kmem.c:216-239 | both tables after the event; the call site of a known pointer is always found, so that it never fails |
| Kmem.Slab.Process | tools/perf/builtin-kmem.c:68-239 | after every recording both tables tell what it says, add up to each other and to the totals, and no event fails |
| RingBuffer.SlotIsMod | tools/perf/builtin-record.c:134-188 | the place of a position in the ring, by taking off whole rounds, is its remainder |
| RingBuffer.MaskIsMod | tools/perf/builtin-record.c:164-176 | masking with the size less one is the remainder, for every ring of a power of two |
| RingBuffer.Wrapped | tools/perf/builtin-record.c:134-188 | wrapping of a 64-bit position does not move its place in a ring of a power of two |
| RingBuffer.Parts | tools/perf/builtin-record.c:164-182 | the circular content of a range is its part up to the end of the ring and its part from the start of the ring, each contiguous in memory |
| RingBuffer.NextEvent | tools/perf/builtin-record.c:97-116 | one step of the walk finds the end of the kept events or moves one event on |
| RingBuffer.BackwardFindRange | tools/perf/builtin-record.c:87-119 | the range is the longest run of whole events from the head that fits into the ring; the walk ends |
| RingBuffer.Record.Write | tools/perf/builtin-record.c:67-76 | a write that works appends the bytes and counts them; one that fails may have appended some and counts none |
| RingBuffer.FindRange | tools/perf/builtin-record.c:121-132 | forwards the range from the last position to the head, backwards the longest run of whole events |
| RingBuffer.WriteFirst | tools/perf/builtin-record.c:164-173 | the part up to the end of the ring is appended if there is one and the write works, and as much of it as was written if not |
| RingBuffer.WriteSecond | tools/perf/builtin-record.c:175-182 | the rest is appended exactly if the write works, and as much of it as was written if not |
| RingBuffer.WriteRange | tools/perf/builtin-record.c:164-182 | the circular content of the range is appended, exactly if both writes work that are made; a failure at any byte leaves a prefix of it |
| RingBuffer.Mmap.Consume | tools/perf/util/evlist.c:872-900 | the tail moves to the read position except in overwrite mode; the last reference to the mapping is dropped exactly when the ring is empty |
| RingBuffer.MmapRead | tools/perf/builtin-record.c:134-188 | what is appended to the file, how far both positions move, what is counted and when the mapping is dropped, in all of: empty, dropped, failed and written ranges; when it fails, exactly, and that then the file has a prefix of the range more and no position has moved |
| RingEvents.RangeOfEvents | tools/perf/builtin-record.c:87-119 | if the ring holds, from the head on and going round, the bytes of some events, in the layout of `struct perf_event_header`, and then nothing, zeros or the start of an event that does not fit, the range is that of the events |
| RingEvents.ReadBackward | tools/perf/builtin-record.c:134-188 | the file then gets exactly the bytes of these events, or a part of them if a write fails |
| RingBuffer.ReadForward | tools/perf/builtin-record.c:134-188 | in step with a producer that never overtakes, a read makes the file equal to all bytes produced; the mapping is dropped only after that |
| RingBuffer.Produce | tools/perf/util/evlist.c:890-900 | a byte enters the ring exactly if there is room by the published tail, and overwrites nothing that is still to be read |
| RingBuffer.Run | tools/perf/builtin-record.c:134-188 | over every list of offered bytes and reads, with wrapping positions: the stream is extended by the offered bytes except those that came when the ring was full by the published tail, and the file is that stream up to the last read |
| RingBuffer.Reader.Publish | tools/perf/util/evlist.c:890-900 | the tail is published only after both parts are written, and then frees just the bytes of this read |
| RingBuffer.Reader.RunSteps | tools/perf/builtin-record.c:134-188 | the same when bytes are offered between the steps of a read: in every state the file is a prefix of the stream, of the length that phase and goal of the read say |
| Checksum.Sum16Concat | arch/x86/lib/csum-partial_64.c:121-137 | the 16-bit sum of an even fragment and another adds up |
| Checksum.TracksMod | arch/x86/lib/csum-partial_64.c:34-119 | tracking a sum is congruence modulo 65535 together with agreement on zero |
| Checksum.LittleTracks | arch/x86/lib/csum-partial_64.c:70-97 | a wide little-endian word tracks the sum of its 16-bit halves |
| Checksum.Add32Tracks | arch/x86/lib/csum-partial_64.c:98-99 | a 32-bit addition with the carry added back tracks the sum |
| Checksum.From32To16Tracks | arch/x86/lib/csum-partial_64.c:12-20 | the fold to 16 bits tracks the value |
| Checksum.OneOff | arch/x86/lib/csum-partial_64.c:41-46 | a sum begun at an odd address is that of the buffer with its bytes exchanged |
| Checksum.SwapTracks | arch/x86/lib/csum-partial_64.c:114-117 | exchanging the result's bytes undoes that |
| Checksum.AddBlock | arch/x86/lib/csum-partial_64.c:70-85 | the chain of eight additions with carry tracks 64 more bytes and its last carry never overflows |
| Checksum.AddWords | arch/x86/lib/csum-partial_64.c:65-97 | the block and the word loop together track all whole 64-bit words |
| Checksum.DoCsum | arch/x86/lib/csum-partial_64.c:34-119 | for every buffer, length and alignment: congruent to the sum of 16-bit words modulo 65535, zero only for all-zero bytes, and folding to the one's complement sum of section 1 of RFC 1071 |
| Checksum.CsumPartial | arch/x86/lib/csum-partial_64.c:121-137 | tracks the buffer's sum plus the given one |
| Checksum.CsumInParts | arch/x86/lib/csum-partial_64.c:121-137 | an even fragment fed into the next gives the fold of the whole, whatever the alignments |
| Memmove.AllMoved | arch/x86/lib/memcpy_32.c:23-207 | moving each byte's old value, in any order, is the copy of the old source bytes |
| Memmove.StoreOver | arch/x86/lib/memcpy_32.c:23-207 | a store of old source bytes extends the moved part on either side |
| Memmove.Move8 | arch/x86/lib/memcpy_32.c:147-159 | 8 to 15 bytes, loaded from both ends before any store |
| Memmove.MoveTwo | arch/x86/lib/memcpy_32.c:165-185 | 2 to 7 bytes, loaded from both ends before any store |
| Memmove.MoveTail | arch/x86/lib/memcpy_32.c:143-196 | every rest below 16 bytes is moved, with any overlap |
| Memmove.Forward16 | arch/x86/lib/memcpy_32.c:50-70 | the forward loop moves all but the rest when the destination is below the source |
| Memmove.ForwardMovs | arch/x86/lib/memcpy_32.c:76-82 | the forward string move with its last word loaded first |
| Memmove.Backward16 | arch/x86/lib/memcpy_32.c:114-141 | the backward loop moves all but the rest when the destination is above the source |
| Memmove.BackwardMovs | arch/x86/lib/memcpy_32.c:87-97 | the backward string move with its first word loaded first |
| Memmove.Memmove | arch/x86/lib/memcpy_32.c:23-207 | for every size, alignment and overlap, memory changes by the copy of the old source bytes and nothing else; the destination is returned |
| InsnCode.ScannedOk | arch/x86/lib/insn.c:92-121 | a scan from the start lists each prefix it took once and has switched the sizes once for each kind of size prefix |
| Insn.ScanBytes | arch/x86/lib/insn.c:92-121 | the scan loop takes legacy prefixes up to the first byte that is none, or that is a fifth kind, and knows the last |
| InsnCode.PutLastKeeps | arch/x86/lib/insn.c:123-132 | exchanging to put the last prefix last keeps the set |
| InsnCode.LegacyMeans | arch/x86/lib/insn.c:92-132 | the legacy prefixes of any code: where they end, that the list holds each kind with the last one last, and that each kind of size prefix has switched its size once |
| InsnCode.LegacySizes | arch/x86/lib/insn.c:92-121 | after legacy prefixes the sizes are 2 or 4, and 2, 4 or 8, as the later stages rely on |
| Insn.ReadVex | arch/x86/lib/insn.c:149-195 | succeeds exactly if there is a byte and no VEX or EVEX prefix is cut off by the end; the length and bytes of the prefix, none for another instruction in 32-bit mode, and what is stored of one that is cut off |
| InsnCode.OpcodeMeans | arch/x86/lib/insn.c:241-248 | the opcode goes on just as long as there are escapes, and is missing if the code ends in them |
| InsnCode.FieldsAgain | arch/x86/lib/insn.c:82-606 | the fields in their order are the bytes of the instruction again, exactly if no second immediate is stored over a second part |
| InsnCode.OverwrittenIs | arch/x86/lib/insn.c:558-583 | such an input: an immediate of eight bytes and a second one, in ten bytes of code |
| InsnCode.CutOffIs | arch/x86/lib/insn.c:465-487 | an input whose immediate is marked as decoded though no byte is left for the second one: five bytes of code |
| InsnCode.EnterWhole | arch/x86/lib/x86-opcode-map.txt:255 | with second immediates only after ones of two bytes, as in the shipped map, none is stored over another and none is cut off |
| InsnRight.FirstScan | arch/x86/lib/insn.c:82-201 | on a new instruction the prefixes are complete exactly if they and a byte after them fit; then the fields are the prefixes of the code, sizes follow from them, REX.W and VEX.W, and the opcode comes next |
| InsnRight.FirstOpcode | arch/x86/lib/insn.c:213-256 | the opcode is complete exactly if it fits; then it is that of the code, with the attribute of the tables for these bytes and prefixes; else all bytes are consumed |
| InsnRight.FirstModrm | arch/x86/lib/insn.c:266-294 | complete exactly if opcode and ModRM byte fit; a ModRM byte is taken exactly if the opcode has one; the attribute is the group's if there is one, and forced 64-bit operands override the size |
| InsnRight.FirstSib | arch/x86/lib/insn.c:326-346 | complete exactly if the SIB byte fits too; one is taken exactly where section 2.1.5 of volume 2A of the Intel manual has one |
| InsnRight.FirstDisp | arch/x86/lib/insn.c:357-410 | complete exactly if the displacement fits too; it has the length that mode, base and address size call for, and follows the SIB byte |
| InsnRight.MoffsetRead | arch/x86/lib/insn.c:413-439 | succeeds exactly if the address size is known and the offset fits: one of the address size, in two parts for eight bytes |
| InsnRight.ImmV32Read | arch/x86/lib/insn.c:442-462 | succeeds exactly if the operand size is known and the immediate fits: 2 or 4 bytes by operand size |
| InsnRight.ImmVRead | arch/x86/lib/insn.c:465-490 | succeeds exactly if the operand size is known and the immediate fits: one of the operand size, in two parts for eight bytes |
| InsnRight.ImmPtrRead | arch/x86/lib/insn.c:493-517 | succeeds exactly if the operand size is 2 or 4 and the pointer fits: an offset and two bytes of segment |
| InsnRight.RestComplete | arch/x86/lib/insn.c:326-589 | in any state after the ModRM byte, SIB byte, displacement and immediates are complete exactly if they fit |
| InsnRight.FirstAll | arch/x86/lib/insn.c:528-589 | all fields count as decoded exactly if the instruction is all there, or if just a second immediate is missing behind one that counts as the whole; they are then those of the code; bytes fall out of the fields exactly when a second immediate overwrites a second part |
| InsnCut.FirstScanStops | arch/x86/lib/insn.c:149-200 | when the code ends inside a VEX prefix the first scan stops there and has stored what there is of it |
| InsnCut.ScanOne | arch/x86/lib/insn.c:82-201 | what a scan makes of a last byte, by its kind |
| InsnCut.ScanTwo | arch/x86/lib/insn.c:82-201 | what a scan makes of the last two bytes, by their kinds |
| InsnCut.CutComplete | arch/x86/lib/insn.c:82-589 | when the code ends inside a VEX prefix, the instruction counts as complete exactly if what is left of the prefix after its first byte happens to fit the attribute found for that byte |
| InsnCut.CutAfterOne | arch/x86/lib/x86-opcode-map.txt:251-252 | a prefix cut off after one byte is not taken for an instruction, if that byte as an opcode has a ModRM byte as in the shipped map |
| InsnCut.CutAfterTwo | arch/x86/lib/insn.c:224-240 | a prefix cut off after two bytes is taken for one, if its first byte is no VEX opcode without a mandatory prefix |
| InsnCut.CutExampleIs | arch/x86/lib/insn.c:149-195 | such an input: two bytes of a VEX prefix of three |
| Insn.Insn.constructor | arch/x86/lib/insn.c:53-72 | nothing decoded and default sizes |
| Insn.Insn.GetPrefixes | arch/x86/lib/insn.c:82-201 | in every state: the stage's function of the state; on a new instruction the prefixes of the code, complete exactly if they fit |
| Insn.Insn.GetOpcode | arch/x86/lib/insn.c:213-256 | in every state: the stage's function of the state, also when the prefixes are scanned again; on a new instruction whose code does not end inside a VEX prefix, complete exactly if the opcode fits, and right |
| Insn.Insn.GetModrm | arch/x86/lib/insn.c:266-294 | in every state: the stage's function of the state; on a new instruction as before, complete exactly if the ModRM byte fits too, and right |
| Insn.Insn.GetSib | arch/x86/lib/insn.c:326-346 | in every state: the stage's function of the state; on a new instruction as before, complete exactly if the SIB byte fits too, and right |
| Insn.Insn.GetDisplacement | arch/x86/lib/insn.c:357-410 | in every state: the stage's function of the state; on a new instruction as before, complete exactly if the displacement fits too, and right |
| Insn.Insn.GetMoffset | arch/x86/lib/insn.c:413-439 | in every state: the function of the state whose success and bytes `InsnRight.MoffsetRead` states |
| Insn.Insn.GetImmV32 | arch/x86/lib/insn.c:442-462 | in every state: the function of the state whose success and bytes `InsnRight.ImmV32Read` states |
| Insn.Insn.GetImmV | arch/x86/lib/insn.c:465-490 | in every state: the function of the state whose success and bytes `InsnRight.ImmVRead` states |
| Insn.Insn.GetImmPtr | arch/x86/lib/insn.c:493-517 | in every state: the function of the state whose success and bytes `InsnRight.ImmPtrRead` states |
| Insn.Insn.GetImmediate | arch/x86/lib/insn.c:528-589 | in every state: the stage's function of the state; on a new instruction what `InsnRight.FirstAll` states |
| Insn.Insn.GetLength | arch/x86/lib/insn.c:598-606 | the length is the bytes consumed, within the buffer and 15 bytes and not below the sum of the field sizes; on a new instruction it is the end of the instruction in the code, and equals that sum exactly when no second immediate overwrites a second part; the instruction is complete exactly if it is all there or cut off in one of the two ways; with tables like the shipped ones, exactly if it is all there, and the length is the sum |
| InsnFormat.SibBack | arch/x86/lib/insn.c:326-346 | for every operand of section 2.1.5 of volume 2A of the Intel manual a SIB byte is expected exactly if it was written |
| InsnFormat.DispBack | arch/x86/lib/insn.c:380-407 | and a displacement of as many bytes as were written |
| InsnFormat.OperandBack | arch/x86/lib/insn.c:266-410 | the ModRM byte, SIB byte and displacement in the code are those of the operand written behind the opcode |
| InsnFormat.GetOperand | arch/x86/lib/insn.c:357-410 | the decoder gives back the bytes of the operand and stops behind them |
| InsnFormat.EveryOperand | arch/x86/lib/insn.c:266-410 | whatever six bytes follow an opcode, they begin with the bytes of an operand |
| InsnFormat.WidthIs | arch/x86/lib/insn.c:413-589 | an offset is as wide as an address; an immediate has the width of its kind, both parts together |
| InsnFormat.Measure | arch/x86/lib/insn.c:598-606 | the length is that of prefixes, opcode, operand and immediates as written, and the instruction is complete |
| InsnFormat.VexBack | arch/x86/lib/insn.c:148-196 | length, opcode map and mandatory prefix of every VEX and EVEX prefix written come back; the width comes back exactly unless an EVEX prefix has a width bit other than the top bit of its last byte |
| InsnFormat.WideLost | arch/x86/lib/insn.c:166-176 | an EVEX prefix, 62 F1 FD 48, whose width is lost |
| Insn.OverwrittenLength | arch/x86/lib/insn.c:598-606 | the decoder on the first input: complete, with length ten, and the field sizes add up to less |
| Insn.CutOffComplete | arch/x86/lib/insn.c:598-606 | the decoder on the second input: complete, with length five, and the second immediate is not there |
| Insn.CutPrefixComplete | arch/x86/lib/insn.c:598-606 | the decoder on the two bytes C4 E1: complete, though the prefix is cut off |
| Hweight.Hweight8Counts | tools/lib/hweight.c:35-40 | the number of bits set |
| Hweight.Hweight32Counts | tools/lib/hweight.c:11-25 | the multiplying and the shifting form both give the number of bits set |
| Hweight.Hweight64Counts | tools/lib/hweight.c:42-62 | the multiplying and the shifting form both give the number of bits set |
| Hweight.Hweight64InHalves | tools/lib/hweight.c:42-46 | the counts of the two halves add up to the number of bits set |
| Hweight.PackedWord | tools/lib/hweight.c:42-62 | a machine word made of 64 bits has these bits |
| Hweight.HweightLong | tools/include/linux/bitops.h:48-51 | the number of bits set, counted by arithmetic on the machine word |
| FindBit.Ffs | tools/include/asm-generic/bitops/__ffs.h:13-41 | the lowest bit set, by halving |
| FindBit.FindNext | tools/lib/find_bit.c:32-55 | the first position at or after the start that differs from the pattern, else the size; start beyond the end included |
| FindBit.FindNextBit | tools/lib/find_bit.c:62-66 | the first bit set at or after the start, else the size |
| FindBit.FindFirstBit | tools/lib/find_bit.c:73-83 | the first bit set, else the size |
| Bitmap.Weight | tools/lib/bitmap.c:10-21 | the size of the set of members below the bound, whatever lies above it |
| Bitmap.WeightSum | tools/lib/bitmap.c:10-75 | the weights of two bitmaps add up to those of their union and intersection |
| Bitmap.OrInto | tools/lib/bitmap.c:23-31 | the union, also when the destination is one of the operands; words beyond are untouched |
| Bitmap.AndInto | tools/lib/bitmap.c:62-75 | the intersection, and whether it has a member below the bound; words beyond are untouched |
| BitmapText.RoundTrip | tools/lib/bitmap.c:33-60 | the printed list of ranges parses back to the same ranges |
| BitmapText.TextNamesBits | tools/lib/bitmap.c:33-60 | the parsed ranges name exactly the bits set |
| BitmapText.ScnprintfCut | tools/lib/vsprintf.c:13-24 | printing piece by piece into a bounded buffer gives the whole text cut to the buffer |
| BitmapText.WalkOn | tools/lib/bitmap.c:41-58 | each search either lengthens the open run or closes it |
| BitmapText.BitmapScnprintf | tools/lib/bitmap.c:33-60 | the output is the text of the maximal runs of set bits, cut to the buffer |
| Cmdline.FindOption | arch/x86/lib/cmdline.c:28-105 | for an option without spaces: the position of its first occurrence as a whole word, or zero exactly if there is none; -1 exactly without a command line |

## Left out

- Sessions, perf.data files, event parsing, options, printing, the user interface and the
  scripting bindings: input and output around the modelled code.
- Page allocator statistics of `perf kmem`: the same bookkeeping over another key. Its comparator subtracts as signed numbers and is not modelled.
- Trees that `perf sched latency`, `perf lock` and `perf kmem` search by key are maps in
  those models, and the work and sequence lists are sequences; the tree itself is proved in
  `RbTree*.dfy`.
- Tree callbacks for augmented data: only the empty ones are modelled.
- Allocation failure, counters running over, and system calls that fail in the replay
  (a thread without its counter would leave; the others would wait).
- Task names, states beyond runnable or not, CPU usage averages and calibration of the replay.
- CPU profiling and migration events of `perf sched latency`, and its output columns.
- ReplayTrace.PerfSched.ForkHandler: whether the threads are found in the session is a parameter.
- Lock.Accounting: of read counts only what the events of a thread need; a violated `BUG_ON` ends the run.
- RingBuffer.BackwardFindRange: event sizes are read at a position as a function of the place in the ring; an event header is not split by the end of the ring.
- RingEvents.ReadBackward: where the ring is not full, at least eight bytes come after the events, as the kernel's alignment of events makes sure.
- RingBuffer.Run: the kernel's producer is part of the model; it refuses a byte when the ring is full, as in non-overwrite mode. Writes to the file work, and the mapping has another user.
- Memmove.Memmove: source and destination lie inside memory; addresses do not wrap.
- Insn.Insn.GetLength: for code that ends inside a VEX or EVEX prefix, completeness is stated for tables without a prefix at byte zero, and nothing about the sum of the field sizes beyond the bound. Attribute tables are arbitrary functions, field values are bytes without sign extension, and the opcode bytes have no bound of their own.
- InsnCode.LegacyMeans: for tables without a prefix at byte zero, which would look like an empty slot.
- Cmdline.FindOption: for an option that contains spaces or is empty only the found position is shown right.
- BitmapText.BitmapScnprintf: a buffer of size zero is modelled only for a bitmap without bits; with one, the C code's printing returns -1, and what the next write does is undefined.
- FindBit.Ffs: words are sequences of 64 bits.
- 16-bit population count and the inverted bit search: the same code with other constants.
