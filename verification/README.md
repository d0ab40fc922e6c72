# Verified models of the kernel and library core

This project models the hard core of an RT-Thread 4.0.2 application in Dafny and proves what that core is
for: the inter-process communication objects, the scheduler, the timers and the three allocators of the
kernel, the JSON library (cJSON), and the base64 coding of the saved wireless settings.

- **Protocols.** Message queue (`MessageQueue`, its abstract form `MessageSpec`, and
  the runs that connect them, `MessageRuns`), mailbox (`Mailbox`), mutex (`Mutex`), event
  set (`Event`), the wait list they share (`WaitList`) and who is ahead of whom in it (`WaitOrder`).  A section that the code runs with interrupts
  disabled is one step; what happens between two sections is a step of its own.  The `Run` methods take any
  threads through any order of steps; a step that is not possible at that point is skipped.  Timeouts may
  happen whenever a thread waits.
- **Scheduler.** Ready queues with the flat and the two-level bitmap (`ReadyIndex`, `Scheduler`), for one
  processor and any number of priorities up to 256.
- **Timers.** The skip list of any number of rows, ordered by ticks that wrap around (`TimerRows`, `Timers`), the
  plain list by deadline that it stands for (`TimerSpec`), and when a check comes to an end (`TimerEnds`).  Each
  timer's timeout function is given by the starts and stops it makes (`TimerCalls`).
- **Allocators.** `mem.c` (`HeapBlocks`, `SmallHeap`), `memheap.c` (`RingList`, `MemHeap`) and `slab.c`
  (`PageList`, `ZoneIndex`, `Slab`), and whole runs of their clients (`HeapClients`, `SmallHeapRuns`,
  `MemHeapRuns`, `Slab.Slab.Run`).
- **JSON.** The tree and its text (`JsonText`), the parser as functions and as loops (`JsonParse`,
  `JsonReader`), the texts of RFC 8259 and what they mean (`JsonUnicode` for strings, `JsonGrammar`), what is printed
  as such a text (`JsonRoundTrip`), both printers (`JsonJoin`, `JsonBuffer`, `JsonWrite`, `PowerOfTwo`) and the
  minifier (`JsonMinify`), on texts of the grammar with comments (`JsonComments`) and on all others (`JsonMeaning`).
- **Base64.** `Base64`.

`Lists`, `Words`, `Buffers` and `FifoLog` hold what several of these share.  Objects that the source updates in place
are classes; where an object has many linked fields they are one record, so that each step is also a pure
lemma about that record.  A ghost view says what the links stand for.  Integers are unbounded except where
the source's width matters: ticks are 32-bit, `hold` is 8-bit, event sets and bitmaps are 32-bit words.

Where the code and its comments disagree the code is modelled.  Properties that do not hold as stated come
with an input that shows it and with the exact condition under which they do hold: `Mutex.HandoverInverts` with
`Mutex.Mutex.Release`, `Timers.RevivedTimer` with `Timers.TimerList.Fire`, `SmallHeap.LastBlockRefused` with
`SmallHeap.RefusedWhen`, `SmallHeap.CutLeavesHintBehind` with `SmallHeap.Heap.CutBlock`,
`MemHeap.WholeHeapRefused` with `MemHeap.RefusedExactly`, `Slab.MisalignedRequests` with `Slab.Slab.Malloc`.
`Mutex.HoldOverflows` goes with `Mutex.Mutex.Take`.  The loop of rt_timer_check does not always end
(`Timers.PeriodicOfNoTicks`, `Timers.RestartedAtOnce`).  It ends if and only if the list by deadline does
(`Timers.TimerList.Check`, `Timers.TimerList.KeepsFiring`), which `TimerEnds.EndsInTime` decides in a bounded
number of rounds for all timeout functions; in terms of which timers start which, `TimerEnds.EndsExactly` is an
equivalence for functions that do nothing to each other's timers but start those of no ticks, and
`TimerEnds.PutOffEnds` shows why not for more.  Sufficient only are the conditions of `JsonReader.OutputFits`, next to
`JsonReader.OutputExceeds`, and of `JsonMeaning.KeepsMeaning`, next to `JsonMeaning.UnclosedRunsOff` and
`JsonMeaning.MinifyChangesMeaning`.

`dafny verify dfyconfig.toml` checks everything.

## Model

| member | source | states |
|---|---|---|
| MessageQueue.Queue.SendTake | rt-thread/src/ipc.c:1974-1997 | a sender gets the first free node exactly if the message is not too long and a node is free; the queued messages do not change |
| MessageQueue.Queue.SendCopy | rt-thread/src/ipc.c:1999-2002 | copying into a node in hand disturbs no queued message, no other thread and neither list |
| MessageQueue.Queue.SendLink | rt-thread/src/ipc.c:2004-2039 | the message in hand becomes the last one (the first one if urgent), beginning with the bytes that were sent, and the first waiter is woken |
| MessageQueue.LinkLastStep | rt-thread/src/ipc.c:2006-2020 | linking behind the tail keeps every node of the pool in exactly one place and appends one message |
| MessageQueue.LinkFirstStep | rt-thread/src/ipc.c:2095-2104 | linking in front of the head keeps every node of the pool in exactly one place and prepends one message |
| MessageQueue.Queue.Receive | rt-thread/src/ipc.c:2160-2247 | a receiver takes the first message exactly if there is one; otherwise it waits in list order or gives up; no wakeup is lost either way |
| MessageQueue.Queue.Finish | rt-thread/src/ipc.c:2252-2265 | what is copied out is a prefix of the message that was first when the receiver took it, whatever others did since; the node is free again |
| MessageQueue.Queue.Timeout | rt-thread/src/thread.c:749-771 | a waiter that times out leaves the list, and the invariant holds without it |
| MessageQueue.Queue.Reset | rt-thread/src/ipc.c:2279-2325 | all waiters fail, the queue is empty, and nodes in the hands of senders and receivers stay theirs |
| MessageQueue.Queue.constructor | rt-thread/src/ipc.c:1780-1827 | sizes are rounded up, there are as many nodes as the pool has room for and no more, all are free, and the invariant holds |
| MessageQueue.BuildPool | rt-thread/src/ipc.c:1813-1821 | the initial free list visits every node once |
| MessageRuns.Act | rt-thread/src/ipc.c:1963-2325 | every section of every operation is the step of the abstract queue with the same name, and hands out what that step takes |
| MessageRuns.Run | rt-thread/src/ipc.c:1963-2325 | any interleaving of any threads is a run of the abstract queue, step by step: its log has one entry per step, receivers are handed what that run gives them, without urgent messages and resets messages come out in the order they went in, each once, and free, queued and held nodes add up to the pool; whoever a send wakes is the one who has waited longest, by priority among the most urgent |
| MessageRuns.AbstractionSimulates | rt-thread/src/ipc.c:1963-2325 | every sound state of the linked lists stands for a state of the abstract queue |
| MessageSpec.InOrder | rt-thread/src/ipc.c:1963-2266 | in every run without urgent messages and resets, what was taken followed by what is queued is what was queued followed by what was sent |
| MessageSpec.LogEntry | rt-thread/src/ipc.c:1963-2325 | which step appends, prepends, takes or clears, both ways |
| MessageSpec.JoinedWasAsked | rt-thread/src/ipc.c:1963-2039 | a message that joins the queue is the one its sender was asked to send in that call, urgent or not as asked |
| MessageSpec.HandedWasTaken | rt-thread/src/ipc.c:2160-2266 | what a receiver is handed is what it took off the queue in that call |
| MessageSpec.SendsWhatWasAsked | rt-thread/src/ipc.c:1974-2002 | between the sections of a send, other threads do not change what is being sent |
| MessageSpec.HoldsWhatWasTaken | rt-thread/src/ipc.c:2242-2265 | between the sections of a receive, other threads do not change what was taken |
| MessageRuns.WaitingMeansEmpty | rt-thread/src/ipc.c:2172-2239 | if somebody waits and nobody has just been woken, the queue is empty |
| MessageRuns.NodesConserved | rt-thread/src/ipc.c:1983-2020 | free nodes, queued nodes and threads that hold a node add up to max_msgs |
| FifoLog.FirstInFirstOut | rt-thread/src/ipc.c:1963-2266 | received messages followed by queued ones are the initial ones followed by the sent ones |
| WaitList.Suspend | rt-thread/src/ipc.c:79-122 | with RT_IPC_FLAG_FIFO the thread goes to the end of the list; by priority it goes behind everyone at least as urgent and in front of everyone less urgent; nobody else changes place |
| WaitList.PlaceByPriority | rt-thread/src/ipc.c:97-117 | by priority, the place is behind everyone at least as urgent and in front of everyone less urgent |
| WaitList.SuspendedOrdered | rt-thread/src/ipc.c:79-122 | suspending keeps a list by priority in order of urgency |
| WaitList.WithoutOrdered | rt-thread/src/thread.c:749-771 | taking a thread off a wait list keeps it in order |
| WaitOrder.FrontIsAhead | rt-thread/src/ipc.c:79-148 | the first of a list that was kept in order through any history is ahead of all others in it: by priority if the list is by priority, and then by when they began to wait |
| WaitOrder.OneJoins | rt-thread/src/ipc.c:79-122 | a thread that joins a list overtakes nobody there, save by priority those less urgent |
| MessageSpec.WokenInTurn | rt-thread/src/ipc.c:79-148 | in every run of the abstract queue, whoever is woken has waited longest, by priority among the most urgent |
| Mailbox.WokenInTurn | rt-thread/src/ipc.c:79-148 | the same for both sides of a mailbox |
| Mutex.AllInTurn | rt-thread/src/ipc.c:829-860 | in every run, whoever is handed the mutex has waited longest, by priority among the most urgent |
| Event.AllAskedInTurn | rt-thread/src/ipc.c:1053-1100 | in every run, a send asks the waiters in the order in which they came, by priority the more urgent first |
| Mailbox.Mailbox.Send | rt-thread/src/ipc.c:1441-1560 | a mail is appended exactly if the mailbox is not full; otherwise the sender waits with it or fails; a waiting receiver is woken; no wakeup is lost on either side |
| Mailbox.Mailbox.Receive | rt-thread/src/ipc.c:1589-1713 | the first mail is taken exactly if there is one; a waiting sender is woken; no wakeup is lost on either side |
| Mailbox.Mailbox.Timeout | rt-thread/src/thread.c:749-771 | a waiting sender or receiver that times out leaves its list and nothing else changes |
| Mailbox.Mailbox.Reset | rt-thread/src/ipc.c:1725-1757 | everybody who waits fails and the mailbox is empty |
| Mailbox.Mailbox.FailAll | rt-thread/src/ipc.c:156-185 | all waiters of one side fail and the other side is left alone |
| Mailbox.Mailbox.constructor | rt-thread/src/ipc.c:1293-1320 | a new mailbox is empty and keeps the invariant |
| Mailbox.RingPut | rt-thread/src/ipc.c:1534-1541 | writing at in_offset appends to the sequence that the ring stands for |
| Mailbox.RingGet | rt-thread/src/ipc.c:1682-1690 | reading at out_offset takes the first of the sequence that the ring stands for |
| Mailbox.OffsetsAgree | rt-thread/src/ipc.c:1534-1541 | in_offset is out_offset plus entry, modulo the size |
| Mailbox.WakeFirstStep | rt-thread/src/ipc.c:1543-1554 | waking the first waiter of one side takes that thread and no other off its list, and counts one more thread on its way |
| Mailbox.Act | rt-thread/src/ipc.c:1441-1757 | each section is the step of the abstract mailbox with the same name, and hands out what that step takes |
| Mailbox.Run | rt-thread/src/ipc.c:1441-1757 | any interleaving takes the ring through the states of the abstract mailbox, one per step, never over its size; receivers are handed what is taken there; without resets mails come out in the order they went in, each once; whoever is woken on either side has waited longest, by priority among the most urgent |
| Mailbox.InOrder | rt-thread/src/ipc.c:1441-1713 | in every run without resets, what was taken followed by what is stored is what was stored followed by what was sent |
| Mailbox.WaitingIsJustified | rt-thread/src/ipc.c:1478-1532 | with nobody just woken, waiting receivers mean an empty mailbox and waiting senders a full one |
| Mutex.Mutex.Take | rt-thread/src/ipc.c:653-778 | who gets the mutex, waits or fails; the owner inherits the priority of a more urgent waiter; the invariant is kept exactly unless the owner takes the mutex a 256th time, when the byte counter wraps |
| Mutex.Mutex.Release | rt-thread/src/ipc.c:789-880 | only the owner releases; the last release restores the priority the owner had at acquisition and hands over to the first waiter; the new owner is then as urgent as all waiters if and only if it was the most urgent of them |
| Mutex.Mutex.Timeout | rt-thread/src/thread.c:749-771 | a waiter leaves, the owner keeps what it was lent |
| Mutex.Mutex.constructor | rt-thread/src/ipc.c:529-549 | a new mutex is free and keeps the invariant |
| Mutex.MutualExclusion | rt-thread/src/ipc.c:653-880 | no two threads are between a take and its release: both would be the owner |
| Mutex.NestStep | rt-thread/src/ipc.c:680-684 | the counter of nested takes keeps the invariant if and only if it is not 255 |
| Mutex.BlockStep | rt-thread/src/ipc.c:714-732 | lending priority and joining the list keep the order of the list and the inheritance of the owner |
| Mutex.HandoverStep | rt-thread/src/ipc.c:829-860 | after a handover the inheritance holds if and only if the first waiter was at least as urgent as the others |
| Mutex.Run | rt-thread/src/ipc.c:653-880 | every run does, step by step, exactly what takes, releases and timeouts say, and skips steps that are not possible; threads that do not own the mutex have their own priority, waiters imply an owner and, for lists by priority, the owner is at least as urgent as every waiter; the mutex is handed to whoever has waited longest, by priority among the most urgent |
| Mutex.Act | rt-thread/src/ipc.c:653-880 | one step: who owns the mutex, how often, who waits in which order and at what priority, before and after |
| Mutex.HandoverInverts | rt-thread/src/ipc.c:840-860 | with RT_IPC_FLAG_FIFO, three threads reach a state where the owner is less urgent than a waiter |
| Mutex.HoldOverflows | rt-thread/src/ipc.c:680-684 | 256 takes in a row leave a mutex that is owned with a count of 0 |
| Event.Event.Send | rt-thread/src/ipc.c:1028-1110 | bit by bit: the set afterwards has the bits that were set or sent and that nobody released took; a waiter is released exactly if the bits left to it by those in front had all (AND) or one (OR) of those it asked for; it receives exactly the bits it asked for that were there, and takes them off if told to; the others wait on in their order |
| Event.Event.Receive | rt-thread/src/ipc.c:1126-1236 | bit by bit: a thread is served exactly if all (AND) or one (OR) of the bits it asked for are set; it receives exactly those that are, and if told to clears all it asked for and no other; otherwise it waits in list order or times out and the set is as it was |
| Event.Event.Collect | rt-thread/src/ipc.c:1222-1235 | a released thread receives the bits the sender found for it |
| Event.Event.Timeout | rt-thread/src/thread.c:749-771 | a waiter that times out leaves the list and nobody becomes servable by that |
| Event.Event.Reset | rt-thread/src/ipc.c:1248-1276 | everybody who waits fails and no bit is set |
| Event.Event.constructor | rt-thread/src/ipc.c:914-932 | a new event object keeps the invariant |
| Event.SweepLeavesUnmet | rt-thread/src/ipc.c:1053-1100 | after a send, no remaining waiter could be served by the bits that are left |
| Event.SweepConsumesOnce | rt-thread/src/ipc.c:1086-1094 | a bit cleared by one released thread is received by no thread behind it |
| Event.SweepBits | rt-thread/src/ipc.c:1059-1094 | a send removes bits only for threads it releases; each receives bits that were set and that it asked for |
| Event.MetBits | rt-thread/src/ipc.c:1136-1165 | the condition on the words is the condition on their bits |
| Event.SweepDecides | rt-thread/src/ipc.c:1053-1100 | who a send releases, by the bits left over by those in front, for every waiter |
| Event.SweepLeaves | rt-thread/src/ipc.c:1086-1094 | a bit is left after a send exactly if nobody released took it |
| Event.SameLeft | rt-thread/src/ipc.c:1073-1091 | clearing only the bits handed over leaves the same set as clearing all the bits asked for |
| Event.Run | rt-thread/src/ipc.c:1028-1277 | every run does, step by step, exactly what sends, receptions, timeouts and resets say; in no state of any run does a suspended thread wait for bits it could have; a send asks waiters in the order in which they came, by priority the more urgent first |
| Event.Act | rt-thread/src/ipc.c:1028-1277 | one step: the set, the waiters and what each thread has received, before and after |
| Event.Offer | rt-thread/src/ipc.c:1063-1091 | bit by bit: the test that a send makes for a waiter holds exactly if all (AND) or one (OR) of its bits are set, and yields exactly those that are |
| ReadyIndex.FfsIsFirst | rt-thread/src/kservice.c:1286-1330 | the table lookup finds the lowest set bit of every 32-bit word, and 0 for the word without bits |
| ReadyIndex.TableEntry | rt-thread/src/kservice.c:1286-1304 | the table entry of every byte that is not zero is its lowest set bit |
| ReadyIndex.MarkedHas | rt-thread/src/scheduler.c:713-717 | marking a priority marks it and no other, in the flat and in the two-level form |
| ReadyIndex.ClearedHas | rt-thread/src/scheduler.c:800-811 | clearing a priority clears it and no other; the group bit goes only with the last bit of its byte |
| ReadyIndex.HighestIsLeast | rt-thread/src/scheduler.c:162-184 | the priority found in the flat or two-level bitmap is marked and no more urgent one is |
| ReadyIndex.NothingMarked | rt-thread/src/scheduler.c:425-426 | the group word is zero exactly if no priority is marked |
| Scheduler.Scheduler.constructor | rt-thread/src/scheduler.c:191-238 | queues, bitmaps and states agree at the start |
| Scheduler.Scheduler.Insert | rt-thread/src/scheduler.c:688-722 | a thread goes to the end of its queue and is marked in the bitmaps, or keeps running if it is the current one |
| Scheduler.Scheduler.Remove | rt-thread/src/scheduler.c:785-815 | a thread leaves its queue and the bitmaps still tell which queues have threads |
| Scheduler.Scheduler.Schedule | rt-thread/src/scheduler.c:411-523 | the current thread changes exactly if scheduling is not locked, somebody is ready, and, should the current one be running, somebody at least as urgent is; then the first of the first queue that is not empty runs, one that was running goes to the end of its queue, and the others keep their order; unless locked, nobody ready is more urgent than the current thread |
| Scheduler.Scheduler.Begin | rt-thread/src/scheduler.c:246-275 | the first thread to run is the most urgent one |
| Scheduler.Scheduler.Startup | rt-thread/src/thread.c:288-321 | a started thread is ready or running at its initial priority, and nobody ready is more urgent than the current thread |
| Scheduler.Scheduler.Suspend | rt-thread/src/thread.c:657-696 | a ready or running thread leaves its queue; any other state is an error without effect |
| Scheduler.Scheduler.Resume | rt-thread/src/thread.c:706-740 | a suspended thread goes to the end of its queue; any other state is an error without effect |
| Scheduler.Scheduler.Timeout | rt-thread/src/thread.c:749-771 | a thread that times out is ready or running afterwards, and nobody ready is more urgent than the current thread |
| Scheduler.Scheduler.ChangePriority | rt-thread/src/thread.c:562-613 | a ready thread moves to the end of the queue of its new priority; all else agrees as before |
| Scheduler.Scheduler.Delete | rt-thread/src/thread.c:430-462 | a deleted thread is on no queue and the bitmaps agree |
| Scheduler.Scheduler.Exit | rt-thread/src/thread.c:80-115 | the thread is closed and the most urgent ready one runs |
| Scheduler.Scheduler.ExitCritical | rt-thread/src/scheduler.c:915-939 | leaving the outermost lock schedules |
| Scheduler.SwitchStep | rt-thread/src/scheduler.c:444-459 | a switch keeps all agreements and leaves the most urgent thread running |
| Scheduler.TakeTurns | rt-thread/src/scheduler.c:430-459 | as many schedules as there are threads of the current priority give each a turn and restore the order exactly |
| Scheduler.SwitchRotates | rt-thread/src/scheduler.c:430-459 | one schedule among equals rotates their order by one |
| Scheduler.Run | rt-thread/src/scheduler.c:411-815 | every run of thread operations, from before the scheduler starts on, does step by step exactly what they say, and keeps queues, bitmaps and thread states in agreement |
| Scheduler.Act | rt-thread/src/scheduler.c:411-815 | one operation: ready queues, thread states, the current thread and the lock counter, before and after |
| Timers.TimerList.Start | rt-thread/src/timer.c:296-396 | a started timer is listed with its new deadline, behind all that are due no later, in every row it enters; the others keep their places |
| Timers.TimerList.Stop | rt-thread/src/timer.c:422-451 | an active timer leaves every row; an inactive one is left alone |
| Timers.TimerList.RemoveRows | rt-thread/src/timer.c:121-130 | the rows without the timer are still a sorted skip list |
| Timers.TimerList.SearchRow | rt-thread/src/timer.c:345-367 | comparing wrapped ticks finds the place by true deadline |
| Timers.TimerList.Search | rt-thread/src/timer.c:343-370 | the search from the top row down finds the right place in every row |
| Timers.TimerList.InsertRows | rt-thread/src/timer.c:376-391 | linking into one or more rows keeps the skip list |
| Timers.TimerList.Fire | rt-thread/src/timer.c:516-543 | one expiry; what it leaves of every timer is exact; flags and rows still agree afterwards if and only if the timer is periodic or its own timeout function does not leave it started |
| Timers.TimerList.Check | rt-thread/src/timer.c:494-553 | whenever the list that the rows stand for comes to an end, so does the check, with no timer due: what expires and in which order, and what is left, is exactly what that list says; timers expire by deadline and, among equal deadlines, by start, across overflow of the tick counter; a timer that was due and that no expired function touched expires exactly once, with its old deadline; any other was started for this very tick by the function of one that expired before it; flags and rows agree afterwards unless a one-shot timer is left started by its own function |
| Timers.TimerList.Round | rt-thread/src/timer.c:507-543 | one round: the first timer expires, as in the list that the rows stand for; timers its function does not touch stay as they are, and what is due afterwards was due before or is started for this tick |
| Timers.TimerList.KeepsFiring | rt-thread/src/timer.c:499-543 | whenever that list does not come to an end, a timer is due after any number of rounds |
| Timers.RestartedAtOnce | rt-thread/src/timer.c:507-543 | a timer of no ticks that its own function starts again is first and due once more at the same tick |
| Timers.PeriodicOfNoTicks | rt-thread/src/timer.c:532-538 | a periodic timer of no ticks, once started, is enough for a check that does not end |
| Timers.NeverStarted | rt-thread/src/timer.c:499-516 | a timer of no ticks whose function starts it again does no harm while it is not due |
| TimerCalls.AllInOrder | rt-thread/src/timer.c:499-543 | timers without such a set can be put in an order in which starts within a tick lead downwards |
| TimerCalls.WeightFalls | rt-thread/src/timer.c:499-543 | then the due timers, read as a binary number by that order, get less with every expiry |
| TimerEnds.EndsInTime | rt-thread/src/timer.c:499-543 | for any timers, timeout functions and due timers: the check ends if and only if no timer is first and due after as many rounds as there are states to be in, so whether it ends can be found out beforehand |
| TimerEnds.EndsWithoutTrap | rt-thread/src/timer.c:499-543 | it ends if the timers due, with those their functions start at once and so on, hold no set of timers of no ticks each of which leaves one of the set started |
| TimerEnds.EndsExactly | rt-thread/src/timer.c:499-543 | it ends if and only if they hold no such set, as long as what their functions do to each other is to start timers of no ticks |
| TimerEnds.DueTrapGoesOn | rt-thread/src/timer.c:499-543 | one of such a set being due, and no function outside it stopping them, the check never ends |
| TimerEnds.PutOffEnds | rt-thread/src/timer.c:499-543 | without any stop, a check may end although such a set can be reached: a timer that would lead there is started anew before it expires |
| TimerEnds.ExpiresOnce | rt-thread/src/timer.c:499-543 | a due timer that no expired function touches expires exactly once |
| TimerEnds.StoppedDoesNotExpire | rt-thread/src/timer.c:507-543 | a due timer that the function of the first one stops does not expire unless it is started again |
| TimerEnds.HarmlessCompletes | rt-thread/src/timer.c:296-553 | in a run where no such set exists at all, every check ends |
| TimerSpec.FinishedIs | rt-thread/src/timer.c:494-553 | what a check that ends leaves behind and lets expire does not depend on how many rounds more are counted |
| TimerSpec.NextGood | rt-thread/src/timer.c:507-543 | a round keeps the list sorted by deadline, each timer on it once, and listed periodic timers active |
| Timers.TimerList.FirstIsDue | rt-thread/src/timer.c:507-516 | the wrapped test on the first timer tells whether any timer is due |
| Timers.TimerList.NextTimeout | rt-thread/src/timer.c:108-119 | the earliest timeout of all timers |
| Timers.TimerList.TickIncrease | rt-thread/src/clock.c:72-98 | after a tick no timer is due; what expires and what is left is exactly what the list that the rows stand for says; a timer of at least one tick expires exactly at its deadline; all of those due that no expired function touched expire exactly once |
| Timers.TimerList.RowsAreSubsequences | rt-thread/src/timer.c:343-394 | every row is a subsequence of the row below |
| Timers.TimerList.Run | rt-thread/src/timer.c:296-553 | any run of starts, stops and ticks whose checks end does to the rows what it does to the list they stand for, and everything expires that expires there, in that order; timers of at least one tick expire exactly at their deadlines; the bottom row stays exactly the active timers if no one-shot timer is left started by its own timeout function |
| Timers.RevivedTimer | rt-thread/src/timer.c:523-543 | a one-shot timer that its own timeout function starts again ends up listed but flagged inactive |
| TimerRows.WrappedOrder | rt-thread/src/timer.c:359-366 | for ticks at most half the range apart, wrapped subtraction tells their true order |
| TimerRows.SortedUnique | rt-thread/src/timer.c:343-394 | there is only one order for a set of timers |
| TimerRows.PlaceBelow | rt-thread/src/timer.c:343-370 | the search may go on below where it stopped above |
| RingList.InsertAfter | rt-thread/include/rtservice.h:58-65 | the four link updates insert one node into the ring |
| RingList.Remove | rt-thread/include/rtservice.h:86-89 | the first two link updates take exactly one node out of the ring |
| RingList.RemoveAll | rt-thread/include/rtservice.h:86-92 | the node removed is out of its ring and a ring of its own |
| SmallHeap.Heap.constructor | rt-thread/src/mem.c:204-266 | one free block and an end marker, and the invariant |
| SmallHeap.Heap.Malloc | rt-thread/src/mem.c:272-410 | the block found is the first from lfree with room; it is split exactly if what is left over holds a header and the least size, and otherwise given whole, and usage and its maximum grow by just that; a request is refused exactly when the search condition finds no block, and then nothing changes; every block in use keeps its bytes; lfree stays the lowest free block |
| SmallHeap.Heap.FindFit | rt-thread/src/mem.c:305-311 | the search ends at the first block with room below its limit, or shows there is none |
| SmallHeap.Heap.TakeBlock | rt-thread/src/mem.c:313-372 | the block is cut at the padded size exactly if what is left over holds a header and the least size, and otherwise given whole; usage and its maximum grow by just that; headers and links still agree |
| SmallHeap.AllottedIs | rt-thread/src/mem.c:329-372 | the blocks after a request, by their offsets |
| SmallHeap.PaddedIsLeast | rt-thread/src/mem.c:288-300 | the padded size is the least aligned size that holds the request and the least block |
| SmallHeap.RefusedIs | rt-thread/src/mem.c:283-311 | which requests are refused, by the offsets and sizes of the free blocks |
| SmallHeap.ShrunkIs | rt-thread/src/mem.c:471-498 | the blocks after a cut, by their offsets: what is cut off and a free block behind it become one |
| SmallHeap.Heap.Give | rt-thread/src/mem.c:313-387 | one block is given out: the blocks, lfree and the usage counters afterwards |
| SmallHeap.Heap.AdvanceLfree | rt-thread/src/mem.c:380-387 | lfree moves to the next free block or to the end |
| SmallHeap.Heap.PlugHoles | rt-thread/src/mem.c:156-194 | free neighbours are joined, nothing else changes, and lfree follows |
| SmallHeap.Heap.Free | rt-thread/src/mem.c:546-609 | the block and its free neighbours become one free block, by their offsets, and usage falls by its extent; other blocks keep their bytes; no two free neighbours remain; pointers outside the heap are ignored |
| SmallHeap.Heap.Realloc | rt-thread/src/mem.c:421-510 | fails exactly for 0, for more than the heap, or if a new block is needed and rt_malloc would refuse it, and then nothing changes but that 0 frees; otherwise the blocks are exactly as they were, cut, or moved to the first fit with the old block freed; the first bytes are carried, other blocks keep theirs, and lfree stays the lowest free block except for cuts, where the exact condition is given |
| SmallHeap.Heap.Resize | rt-thread/src/mem.c:459-510 | the same size is left alone, a block that leaves a block is cut, anything else moves to the first fit; fails exactly if that move is refused; lfree stays the lowest free block except for cuts, where the exact condition is given |
| SmallHeap.Heap.CutBlock | rt-thread/src/mem.c:471-498 | after a cut, lfree is still the lowest free block if and only if it was at most the block behind and not the end marker |
| SmallHeap.Heap.Move | rt-thread/src/mem.c:499-509 | fails exactly if rt_malloc would, and leaves every block as it was; otherwise the first fit is taken, the bytes are carried and the old block is freed |
| SmallHeap.Heap.Fresh | rt-thread/src/mem.c:444-446 | without a block to resize it is a request |
| SmallHeapRuns.Run | rt-thread/src/mem.c:272-609 | any run of requests, resizes and releases does, step by step, exactly what they say: which are turned down, which block is taken, how blocks are cut, joined and moved; every pointer a client holds stays in a block of its own with room for its bytes and with those bytes, and no two overlap; nothing is lost: the used blocks are those that were in use before and one for each pointer held, so a client that has given everything back leaves the blocks and the counter exactly as they were |
| SmallHeapRuns.ActRealloc | rt-thread/src/mem.c:421-510 | a resized block keeps the bytes that fit, and every other pointer its bytes |
| HeapClients.OthersKept | rt-thread/src/mem.c:272-609 | blocks that an operation spares keep what clients hold |
| HeapClients.HeldApart | rt-thread/src/mem.c:272-609 | what clients hold does not overlap |
| SmallHeapRuns.BackedStep | rt-thread/src/mem.c:272-609 | no operation leaves a block in use that neither the client nor anybody else holds, or takes one that is held |
| HeapBlocks.UsedDetermines | rt-thread/src/mem.c:156-194 | with no two free neighbours, the used blocks determine all blocks |
| SmallHeap.SearchFromStart | rt-thread/src/mem.c:305-311 | searching from the lowest free block is first fit from the start of the heap |
| SmallHeap.RefusedWhen | rt-thread/src/mem.c:305-311 | a proper request is refused if and only if the only block with room is the last one, and without a byte to spare |
| SmallHeap.LastBlockRefused | rt-thread/src/mem.c:305-306 | a new heap turns down a request for exactly what it has |
| SmallHeap.CutLeavesHintBehind | rt-thread/src/mem.c:471-498 | after a cut in a heap in full use, lfree is not the lowest free block |
| HeapBlocks.Disjoint | rt-thread/src/mem.c:313-378 | two blocks share no byte |
| HeapBlocks.CoalescedSparse | rt-thread/src/mem.c:156-194 | after joining there are no two free neighbours |
| HeapBlocks.FreedIs | rt-thread/src/mem.c:156-194 | the blocks after a release, by their offsets: the block and its free neighbours are one, nothing else changes |
| MemHeap.MemHeap.constructor | rt-thread/src/memheap.c:50-121 | one free block, the closing item, both rings, and the counters |
| MemHeap.MemHeap.Find | rt-thread/src/memheap.c:157-180 | the first block of the free list that has room, or none has |
| MemHeap.MemHeap.Alloc | rt-thread/src/memheap.c:138-281 | succeeds exactly if the request is below available_size and some free block has room; gives the first such block in list order, split exactly if what is left over holds an item and the least size, and otherwise whole; blocks, free list and available_size afterwards are stated by offsets; keeps tiling and rings |
| MemHeap.MemHeap.Free | rt-thread/src/memheap.c:495-595 | the block and its free neighbours become one free block, by their offsets; the list gets it in front unless the neighbour before it was listed, and loses the one behind; available_size grows by its size and the headers saved |
| MemHeap.MemHeap.Absorb | rt-thread/src/memheap.c:540-591 | the freed block and its free neighbours become one, which goes to the front of the free list unless the one before it is listed; list and available_size afterwards are exact |
| MemHeap.MemHeap.Grow | rt-thread/src/memheap.c:333-400 | the block takes what it needs from the free block behind, which is listed again with the rest |
| MemHeap.MemHeap.Shrink | rt-thread/src/memheap.c:419-492 | the rest is cut off, merged with a free block behind and listed once |
| MemHeap.MemHeap.Move | rt-thread/src/memheap.c:408-417 | fails exactly if rt_memheap_alloc would, and changes nothing; otherwise the first listed block with room is taken, the bytes are carried and the old block is freed |
| MemHeap.MemHeap.Fresh | rt-thread/src/memheap.c:305-308 | without a block to resize it is a request |
| MemHeap.MemHeap.Obtain | rt-thread/src/memheap.c:408-413 | the first listed block with room is taken and gets the bytes; nobody else notices |
| MemHeap.MemHeap.Resize | rt-thread/src/memheap.c:305-492 | a block that is there gets another size: grown, moved, cut or left as it was |
| MemHeap.ResizedIs | rt-thread/src/memheap.c:305-492 | which of the four it is and what the blocks are then, by their offsets |
| MemHeap.GivenIs | rt-thread/src/memheap.c:188-255 | the blocks after a request, by their offsets: when the block is split and where |
| MemHeap.HasRoomIs | rt-thread/src/memheap.c:155-180 | a request has room exactly if some free block is large enough and more is free than is asked for |
| MemHeap.MemHeap.Realloc | rt-thread/src/memheap.c:284-492 | fails exactly for 0, or if a new block is needed and rt_memheap_alloc would refuse it, and then nothing changes but that 0 frees; otherwise the blocks are, by their offsets, as they were, grown into the block behind, cut, or moved; the first bytes are carried, and all other used blocks keep place and bytes |
| MemHeapRuns.Run | rt-thread/src/memheap.c:138-595 | any run of requests, resizes and releases does, step by step, exactly what they say: which are turned down, which block is taken, how blocks are cut, joined and moved; every pointer a client holds stays in a block of its own with room for its bytes and with those bytes, and no two overlap; nothing is lost: the used blocks are those that were in use before and one for each pointer held, so a client that has given everything back leaves the blocks and the counter exactly as they were |
| MemHeapRuns.BackedStep | rt-thread/src/memheap.c:138-595 | no operation leaves a block in use that neither the client nor anybody else holds, or takes one that is held |
| MemHeap.RefusedExactly | rt-thread/src/memheap.c:155-155 | with room in a block, a request is turned down if and only if that block fits exactly and is all the free space |
| MemHeap.WholeHeapRefused | rt-thread/src/memheap.c:155-155 | a new heap turns down a request for all it has |
| MemHeap.SplitStep | rt-thread/src/memheap.c:192-212 | splitting a block keeps tiling, block ring and flags |
| MemHeap.JoinStep | rt-thread/src/memheap.c:538-578 | joining two blocks keeps tiling, block ring and flags |
| MemHeap.BothJoined | rt-thread/src/memheap.c:538-578 | joining to the left first gives the same blocks as joining to the right first |
| MemHeap.StampedData | rt-thread/src/memheap.c:192-225 | writing the headers of items changes no byte behind the header of any block |
| PageList.PageList.constructor | rt-thread/src/slab.c:327-334 | exactly the given pages are free |
| PageList.PageList.Alloc | rt-thread/src/slab.c:236-270 | takes the lowest so many consecutive free pages, and fails if and only if there are none |
| PageList.PageList.Release | rt-thread/src/slab.c:272-322 | exactly the pages given back become free as well, and the list stays in canonical form |
| PageList.PageList.AllocRelease | rt-thread/src/slab.c:236-322 | allocating and freeing leaves the list exactly as it was |
| PageList.CanonicalUnique | rt-thread/src/slab.c:272-322 | the list is determined by the set of free pages |
| PageList.InOneRun | rt-thread/src/slab.c:236-270 | consecutive free pages always lie in one run |
| ZoneIndex.ClassIsBest | rt-thread/src/slab.c:401-459 | every request below 16 KB has a class, its chunk holds the request and the next smaller chunk does not |
| ZoneIndex.ClassIsLeast | rt-thread/src/slab.c:401-459 | a class holds the request if and only if its index is at least the one computed |
| ZoneIndex.WasteIsSmall | rt-thread/src/slab.c:401-459 | rounding up wastes less than eight bytes below 128, and from there on less than an eighth of the request |
| Slab.Slab.constructor | rt-thread/src/slab.c:344-392 | zone size, zone limit and the first pages for memusage follow from the number of pages, and exactly the others are free |
| Slab.Slab.Malloc | rt-thread/src/slab.c:478-665 | which zone, chunk and page a request is served from, and what zones, lists and pages are then, is exact; a small request gets a chunk of its class that is not in use, a large one pages that are not in use, and all other chunks and pages in use stay so with their sizes; failure only for size 0 or for lack of consecutive free pages, and then nothing changes; a power of two is aligned if and only if its first page is, always up to the page size |
| Slab.Slab.MallocFromZone | rt-thread/src/slab.c:539-577 | a chunk from fresh space first, then from the free chain; the zone leaves its list exactly when exhausted; no other zone or list changes |
| Slab.Slab.MallocNewZone | rt-thread/src/slab.c:587-659 | a recycled zone if there is one, else the lowest pages that fit; its pages all point back to it, its first chunk is given out, and it leads its list |
| Slab.Slab.MallocPages | rt-thread/src/slab.c:493-521 | the lowest pages that fit, recorded in memusage at the first of them; all other chunks and pages in use stay so |
| Slab.Slab.ZoneOf | rt-thread/src/slab.c:825-828 | the memusage entry of the page of a chunk in use leads to its own zone |
| Slab.Slab.Free | rt-thread/src/slab.c:771-903 | exactly the chunk or pages are free again; the chunk leads its chain, an exhausted zone returns to its list, and a zone without chunks in use is recycled unless its list has no other, or goes back to the page allocator if ZONE_RELEASE_THRESH zones are waiting already: zones, lists, recycled zones and free pages afterwards are exact; all other chunks and pages in use stay so |
| Slab.Slab.FreeChunk | rt-thread/src/slab.c:822-897 | one chunk: zones, lists, recycled zones and free pages afterwards, with and without the zone becoming empty |
| Slab.NewZoneIs | rt-thread/src/slab.c:628-648 | where the first chunk of a new zone lies, and how many it has |
| Slab.Slab.PutBack | rt-thread/src/slab.c:830-846 | the chunk goes to the front of the chain; an exhausted zone returns to its list |
| Slab.Slab.Retire | rt-thread/src/slab.c:854-897 | a zone without chunks in use leaves its list; with more than two such zones one goes back to the page allocator; chunks and pages in use stay so |
| Slab.LiveApart | rt-thread/src/slab.c:539-577 | no two chunks in use overlap |
| Slab.ChunksApartFromPages | rt-thread/src/slab.c:493-577 | chunks in use and pages in use do not overlap |
| Slab.Slab.Run | rt-thread/src/slab.c:478-903 | any run of requests and releases does, step by step, what they say: from which zone, chunk or pages a request is served, what a release gives back and which zone it recycles or releases; a request is turned down exactly if there is no room for it; every pointer a client holds has room for what was asked for, no two overlap, and nothing else is in use |
| Slab.AllFree | rt-thread/src/slab.c:854-856 | a zone whose free count is its maximum has no chunk in use |
| Slab.NewZoneGood | rt-thread/src/slab.c:628-648 | the layout of a new zone: header in front, chunks inside, at least two of them |
| Slab.ChunksAligned | rt-thread/src/slab.c:631-644 | chunks whose size is a power of two are aligned to it if and only if their zone is |
| Slab.SmallChunksAligned | rt-thread/src/slab.c:631-644 | up to the page size such chunks are always aligned |
| Slab.LiveAligned | rt-thread/src/slab.c:631-644 | every chunk in use whose size is a power of two is aligned to it if and only if its zone is |
| Slab.MisalignedRequests | rt-thread/src/slab.c:478-659 | in a heap of 16385 pages the first requests for 8 KB and for 16 KB are not aligned to their size, against the comment at the top of the file |
| JsonUnicode.Utf8Decodes | packages/cJSON-v1.0.2/cJSON.c:235-243 | the bytes written for a code point decode to it and leave nothing over, by a decoder after RFC 3629: the first byte tells the length, every other adds six bits, and the shortest form is asked for |
| JsonUnicode.DecodedIsUtf8 | packages/cJSON-v1.0.2/cJSON.c:235-243 | and no other bytes decode to it |
| JsonUnicode.Hex4Is | packages/cJSON-v1.0.2/cJSON.c:183-194 | parse_hex4 finds a number other than 0 exactly where its four digits stand, in either case |
| JsonUnicode.EscapeParses | packages/cJSON-v1.0.2/cJSON.c:222-243 | an escape for a code point, by four digits or by a surrogate pair, is read as its UTF-8 |
| JsonUnicode.DroppedEscape | packages/cJSON-v1.0.2/cJSON.c:223-231 | what stands for nothing: 0, and half of a surrogate pair without the other half |
| JsonUnicode.OtherEscape | packages/cJSON-v1.0.2/cJSON.c:245-245 | any other character behind a backslash stands for itself |
| JsonUnicode.SpelledString | packages/cJSON-v1.0.2/cJSON.c:198-256 | a literal is read as the bytes it spells after section 7 of RFC 8259, escapes and surrogate pairs included, whatever follows it |
| JsonUnicode.EscapedString | packages/cJSON-v1.0.2/cJSON.c:198-256 | a literal spelled wholly in \u escapes parses to the UTF-8 of its code points |
| JsonGrammar.Reads | packages/cJSON-v1.0.2/cJSON.c:363-553 | parse_value reads every text of RFC 8259 whose numbers are integers that an int can hold as what it means, with blanks wherever they may stand and any text behind it that cannot be taken for more of a number |
| JsonGrammar.DocumentReads | packages/cJSON-v1.0.2/cJSON.c:329-345 | a document between blanks is read as what it means, with nothing left over |
| JsonGrammar.IntegerReads | packages/cJSON-v1.0.2/cJSON.c:102-118 | an integer is read as the value of its decimal digits |
| JsonGrammar.LenientNumbers | packages/cJSON-v1.0.2/cJSON.c:102-118 | outside that grammar: one zero may lead, a second one ends the number, and a sign alone is 0 |
| JsonRoundTrip.PrintsLayout | packages/cJSON-v1.0.2/cJSON.c:378-663 | the text of every tree, formatted or not, is its layout: members on lines of their own that begin with as many tabs as they are deep, a tab behind each colon, a space behind each comma between elements |
| JsonRoundTrip.LayoutMeans | packages/cJSON-v1.0.2/cJSON.c:378-663 | what is printed is a text of the grammar and means the tree |
| JsonRoundTrip.PrintedSpells | packages/cJSON-v1.0.2/cJSON.c:258-313 | print_string_ptr writes a literal that spells the string after RFC 8259 |
| JsonRoundTrip.PlainAsItIs | packages/cJSON-v1.0.2/cJSON.c:262-274 | a string without control characters, quotes and backslashes is written as it is |
| JsonRoundTrip.PrintedDigits | packages/cJSON-v1.0.2/cJSON.c:153-181 | a number is written in decimal digits without leading zeros |
| JsonRoundTrip.RoundTrip | packages/cJSON-v1.0.2/cJSON.c:363-437 | parsing the print of any tree gives the tree, formatted or not, at any depth and with any text behind it that cannot be taken for more of a number |
| JsonRoundTrip.DocumentRoundTrip | packages/cJSON-v1.0.2/cJSON.c:329-345 | a printed document parses to its tree with blanks around it and nothing left over |
| JsonRoundTrip.PrintInjective | packages/cJSON-v1.0.2/cJSON.c:348-349 | no two trees print alike |
| JsonReader.ReadString | packages/cJSON-v1.0.2/cJSON.c:198-256 | the loop computes the specified parse of a string; a literal is read as the bytes it spells |
| JsonReader.CountChars | packages/cJSON-v1.0.2/cJSON.c:203-205 | the first pass counts what its buffer is sized for |
| JsonReader.OutputFits | packages/cJSON-v1.0.2/cJSON.c:203-251 | for every literal: if the second pass stops no later than the first, it writes no more than the first has counted |
| JsonReader.InStep | packages/cJSON-v1.0.2/cJSON.c:203-251 | both passes stop at the same place if every \u is followed by four characters that are neither quote nor backslash |
| JsonReader.OutputExceeds | packages/cJSON-v1.0.2/cJSON.c:203-251 | with a quote right behind a \u the first pass counts one character, whatever the second goes on to write |
| JsonReader.ReadValue | packages/cJSON-v1.0.2/cJSON.c:363-376 | the dispatch computes the specified parse of a value; a text of the grammar is read as what it means |
| JsonReader.ReadArray | packages/cJSON-v1.0.2/cJSON.c:412-437 | the loop over the elements computes the specified parse of an array |
| JsonReader.ReadMember | packages/cJSON-v1.0.2/cJSON.c:531-536 | name, colon and value |
| JsonReader.ReadObject | packages/cJSON-v1.0.2/cJSON.c:520-553 | the loop over the members computes the specified parse of an object |
| JsonWrite.EscapedLength | packages/cJSON-v1.0.2/cJSON.c:284-284 | the length worked out beforehand is the number of characters written |
| JsonWrite.WriteEscaped | packages/cJSON-v1.0.2/cJSON.c:290-311 | the copying loop writes the escaped string and nothing outside the room asked for |
| JsonWrite.NothingToEscape | packages/cJSON-v1.0.2/cJSON.c:262-274 | a string without special characters is its own text |
| JsonWrite.NumberFits | packages/cJSON-v1.0.2/cJSON.c:160-166 | an integer needs at most eleven of the 21 characters asked for |
| JsonBuffer.PrintBuffer.Ensure | packages/cJSON-v1.0.2/cJSON.c:127-142 | there is room for what is needed, the length is kept or becomes the least power of two that will do, and the text so far is kept |
| JsonBuffer.PrintBuffer.Update | packages/cJSON-v1.0.2/cJSON.c:144-150 | finds the end of the text just written |
| JsonBuffer.PrintBuffer.PrintString | packages/cJSON-v1.0.2/cJSON.c:258-313 | a string is appended to the text so far |
| JsonBuffer.PrintBuffer.PrintNumber | packages/cJSON-v1.0.2/cJSON.c:153-181 | a number is appended to the text so far |
| JsonBuffer.PrintBuffer.PrintValue | packages/cJSON-v1.0.2/cJSON.c:378-410 | a value is appended to the text so far |
| JsonBuffer.PrintBuffer.PrintArray | packages/cJSON-v1.0.2/cJSON.c:440-474 | an array is appended to the text so far |
| JsonBuffer.PrintBuffer.PrintObject | packages/cJSON-v1.0.2/cJSON.c:556-613 | an object is appended to the text so far; where the result points is stated exactly |
| JsonBuffer.PrintBuffered | packages/cJSON-v1.0.2/cJSON.c:351-359 | for a starting size of 0 or less nothing; otherwise the growing buffer holds exactly the text of the joining printer, for every tree and format |
| JsonJoin.PrintString | packages/cJSON-v1.0.2/cJSON.c:258-313 | the allocated string is the specified text |
| JsonJoin.PrintValue | packages/cJSON-v1.0.2/cJSON.c:378-410 | the joining printer gives the specified text |
| JsonJoin.PrintArray | packages/cJSON-v1.0.2/cJSON.c:475-516 | the computed length is enough for every element and separator, and the parts join to the specified text |
| JsonJoin.PrintObject | packages/cJSON-v1.0.2/cJSON.c:614-663 | the computed length is enough for every member, and the parts join to the specified text |
| JsonComments.MinifyPrint | packages/cJSON-v1.0.2/cJSON.c:741-756 | minifying the print of any tree gives its unformatted print byte for byte |
| JsonComments.MinifyKeepsMeaning | packages/cJSON-v1.0.2/cJSON.c:741-756 | a minified print still parses to its tree |
| JsonComments.MinifyCommented | packages/cJSON-v1.0.2/cJSON.c:741-756 | any text of the grammar with blanks, line comments and block comments between its parts becomes the same text without them, and parses to what was meant |
| JsonComments.BareMeans | packages/cJSON-v1.0.2/cJSON.c:741-756 | taking blanks out of a text does not change what it means |
| JsonComments.GivesGap | packages/cJSON-v1.0.2/cJSON.c:746-751 | any blanks and comments in front of a text are taken out |
| JsonComments.SpelledLength | packages/cJSON-v1.0.2/cJSON.c:752-752 | every literal that spells a string is copied as a whole |
| JsonComments.UnclosedComment | packages/cJSON-v1.0.2/cJSON.c:751-751 | a comment that is not closed leads past the end |
| JsonComments.SharedStar | packages/cJSON-v1.0.2/cJSON.c:751-751 | a slash right behind the star closes a comment that C would leave open |
| JsonMeaning.KeepsMeaning | packages/cJSON-v1.0.2/cJSON.c:741-756 | minifying any text that parses to its end gives a text that parses to the same tree, if every literal ends for the minifier where it ends for the parser |
| JsonMeaning.PlainIsSame | packages/cJSON-v1.0.2/cJSON.c:741-756 | which is so if literals are closed and every \u in them is followed by four characters that are neither quote nor backslash |
| JsonMeaning.UnclosedRunsOff | packages/cJSON-v1.0.2/cJSON.c:749-749 | a literal without a closing quote parses, and the minifier runs past the end of the text |
| JsonMeaning.MinifyChangesMeaning | packages/cJSON-v1.0.2/cJSON.c:749-749 | where a \u jumps over a quote, minifying can change the tree |
| JsonMeaning.CharsElsewhere | packages/cJSON-v1.0.2/cJSON.c:213-252 | a literal reads the same whatever text follows it |
| JsonMinify.MinifyInPlace | packages/cJSON-v1.0.2/cJSON.c:741-756 | the in-place loop computes the specified text, never writing past where it reads |
| PowerOfTwo.Pow2GtIsLeast | packages/cJSON-v1.0.2/cJSON.c:123-123 | pow2gt is the least power of two at or above its argument, up to 2^30 |
| PowerOfTwo.LeastPow2IsLeast | packages/cJSON-v1.0.2/cJSON.c:123-123 | the specification of pow2gt is a power of two and least |
| Base64.RoundTrip | ports/wifi/wifi_config.c:65-142 | decoding the encoding of any nonempty byte string gives it back with its exact length |
| Base64.Encode | ports/wifi/wifi_config.c:65-107 | the loop writes the specified text and its terminator inside the buffer of write_cfg |
| Base64.Decode | ports/wifi/wifi_config.c:112-142 | the loop writes the specified bytes; a length that is not a multiple of four gives 0 |
| Base64.TextFits | ports/wifi/wifi_config.c:183-183 | text and terminator fit the buffer that write_cfg allocates |
| Base64.Padding | ports/wifi/wifi_config.c:117-122 | the padding tells exactly how many bytes there were |
| Base64.EncodedInjective | ports/wifi/wifi_config.c:65-107 | different byte strings have different texts |
| Base64.EncodedIsNumber | ports/wifi/wifi_config.c:65-107 | the text spells, six bits to a character of the alphabet of RFC 4648, the very number that the bytes spell with eight bits each, filled up with zero bits and with the padding sign |
| Base64.TableIsAlphabet | ports/wifi/wifi_config.c:41-42 | the encoding table is the alphabet of RFC 4648 in its order |
| Base64.DecodeTableIsPlace | ports/wifi/wifi_config.c:44-62 | the decoding table gives the place of a character in that alphabet, and 0 for any other |
| MessageQueue.Queue.WakeFirst | rt-thread/src/ipc.c:133-148 | the first waiter is resumed and counts as on its way; without waiters nothing happens |
| MessageQueue.Queue.ReturnError | rt-thread/src/ipc.c:2217-2222 | a receiver resumed with an error leaves; nothing else changes |
| Mailbox.Mailbox.ReturnError | rt-thread/src/ipc.c:1514-1519 | a thread resumed with an error leaves; nothing else changes |
| Mutex.Mutex.ReturnError | rt-thread/src/ipc.c:754-761 | a thread whose wait timed out leaves; nothing else changes |
| Event.Event.ReturnError | rt-thread/src/ipc.c:1216-1220 | a thread resumed with an error leaves; nothing else changes |
| Scheduler.Scheduler.EnterCritical | rt-thread/src/scheduler.c:855-870 | one more lock |
| Timers.TimerList.constructor | rt-thread/src/timer.c:679-687 | empty rows and inactive timers, periodic and of no ticks included, agree |
| Timers.TimerList.Detach | rt-thread/src/timer.c:309-315 | the timer is on no row and not active; all others stay |
| Timers.TimerList.Arm | rt-thread/src/timer.c:319-324 | the wrapped timeout stands for the true deadline, within half the tick range |
| Timers.TimerList.Enter | rt-thread/src/timer.c:326-396 | the timer is listed at its place in the rows and active; all others stay |
| Timers.TimerList.TakeFirst | rt-thread/src/timer.c:509-521 | the timer taken off is before all that stay, by deadline and then by start |
| Timers.TimerList.Settle | rt-thread/src/timer.c:532-543 | a periodic timer that is still active starts again, any other is flagged inactive; when flags and rows agree afterwards is stated exactly |
| SmallHeap.Heap.SplitBlock | rt-thread/src/mem.c:329-348 | headers and links of the two halves and of the block behind agree; bytes outside the headers stay |
| SmallHeap.Heap.Join | rt-thread/src/mem.c:165-180 | two free neighbours become one block, lfree follows, bytes outside two headers stay |
| SmallHeap.Heap.ReleaseBlock | rt-thread/src/mem.c:589-607 | the block is free and joined, usage is reduced by its extent, lfree stays the lowest free block |
| SmallHeap.Heap.CopyBytes | rt-thread/src/kservice.c:210-280 | bytes are copied and all others stay |
| MemHeap.MemHeap.TakePart | rt-thread/src/memheap.c:188-236 | the block is cut, unlisted, and the rest listed in front; counters follow |
| MemHeap.MemHeap.TakeWhole | rt-thread/src/memheap.c:237-255 | the block is unlisted; counters follow |
| MemHeap.MemHeap.JoinLeft | rt-thread/src/memheap.c:540-557 | a free block in front takes over the freed one, which then needs no listing |
| MemHeap.MemHeap.JoinRight | rt-thread/src/memheap.c:559-578 | the freed block takes over a free block behind, which is unlisted |
| MemHeap.MemHeap.JoinRest | rt-thread/src/memheap.c:454-473 | what was cut off takes over a free block behind; the difference in the counters is exact |
| MemHeap.MemHeap.CopyBytes | rt-thread/src/kservice.c:210-280 | bytes are copied and all others stay |
| MemHeap.Unlist | rt-thread/src/memheap.c:215-219 | the item leaves the ring of free blocks and nothing else changes |
| MemHeap.List | rt-thread/src/memheap.c:221-225 | the item joins the ring of free blocks in front and nothing else changes |
| Slab.Slab.FreePages | rt-thread/src/slab.c:796-820 | exactly the pages of the allocation become free |
| JsonBuffer.PrintBuffer.constructor | packages/cJSON-v1.0.2/cJSON.c:351-356 | an empty text in a buffer of the size asked for, above 0 |
| JsonBuffer.PrintBuffer.PrintMember | packages/cJSON-v1.0.2/cJSON.c:585-600 | indentation, name, colon and value of one member are appended |
| JsonBuffer.PrintBuffer.PrintItem | packages/cJSON-v1.0.2/cJSON.c:465-471 | one round of the loop appends one element and its separator |
| JsonJoin.PrintEmptyObject | packages/cJSON-v1.0.2/cJSON.c:565-575 | the text of an empty object fits what is allocated |
| JsonJoin.JoinItem | packages/cJSON-v1.0.2/cJSON.c:507-512 | one round of the copying loop: what is copied followed by the text of the elements left stays the same |
| JsonJoin.JoinMember | packages/cJSON-v1.0.2/cJSON.c:648-657 | one round of the copying loop: what is copied followed by the text of the members left stays the same |
| JsonMinify.MinifyRound | packages/cJSON-v1.0.2/cJSON.c:744-754 | one round of the in-place loop: what is written followed by what the rest minifies to stays the same, and writing never overtakes reading |

## Left out

- Semaphores, memory pools, signals, devices, hooks, the shell, and object registration: no property of them is as hard as those of the objects modelled.
- More than one processor (`RT_USING_SMP`): the scheduler and the protocols are modelled for one.
- Detaching and deleting objects while threads wait on them.
- Mutexes: a thread that waits for one mutex while it owns another, and priority changes from outside.
- Mutex.Mutex.Take: does not model the retry after a signal.
- Wait lists: priorities of waiting threads do not change, since the code does not sort them again.
- Waiting times: how long a thread has left after being woken too early is not computed; a woken thread may find it has or has not time left.
- Mailbox.WakeFirst: is total, so it has a branch for a list entry that does not wait; the invariant rules it out.
- Event.Event.Receive: requires one of the AND and OR options, as the code asserts.
- Scheduler: `rt_current_priority` and stack checks; the lock counter is unbounded.
- ReadyIndex.LowestBitBitmap: gives the 256 table entries by row and column instead of as an array.
- Timers: soft timers, `rt_timer_control`, detaching, and the insert counter's wrap-around; every tick is followed by a check before the next.
- Timers.TimerList.Start: is one step, though the code has two sections with interrupts disabled between which the timer is off the list; `Detach` and `Enter` model them one by one.
- Timers.TimerList.Check: the tick does not advance while timeout functions run, since the code has interrupts disabled there.
- Timers.TimerList.TickIncrease: the time slice of the running thread is left out.
- SmallHeap.Heap.constructor: takes a stretch with at least twelve bytes between two headers; with fewer, the limit of the search in rt_malloc is a difference that wraps around.
- SmallHeap.Heap.Malloc: sizes do not wrap around when they are rounded up; `rt_calloc` and the block names are left out.
- MemHeap.MemHeap.constructor: takes a pool with room for two items, which the code does not test.
- MemHeap: an item's header fields are kept in maps beside the bytes, where a header shows as bytes that are overwritten; `MemHeap` as system heap is left out. The order of link updates that touch different fields is not always that of the code.
- Slab: `rt_realloc`, `rt_calloc` and the usage statistics; calls are not interleaved, and the linked lists of zones and chunks are sequences. The test for a power of two is by halving instead of by bits.
- HeapClients: a client writes its bytes right after a request, and not later.
- PageList: the list is a sequence, so links inside the pages are not modelled.
- JSON numbers are 32-bit integers: fractions, exponents and other doubles are not modelled, and the parser model reports them as unsupported. Allocation never fails.
- JsonReader.ReadString: collects its output in a sequence; what the buffer of the code has room for is the subject of `JsonReader.OutputFits`.
- JsonBuffer.PrintBuffer.Ensure: does not model sizes beyond 2^30, where `pow2gt` overflows.
- JsonMinify.MinifyInPlace: where the code runs past the terminator of a text with an unclosed comment or literal, the model reports it and promises nothing.
- cJSON trees are values: building, searching, editing, duplicating and freeing them is left out.
- Base64.Decode: an empty text is excluded, for which the code reads in front of it. Bytes and sextets are integers, with quotients and remainders for shifts and masks. Reading and writing the settings store is left out.
