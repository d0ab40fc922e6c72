/**
 The message queue as a protocol of atomic steps.

 Every section that the code runs with interrupts disabled is one step, and so is the copying in
 between, during which a thread has a node of the pool to itself.  Any thread may take the next step.
 */
module MessageQueue {
  import opened Lists
  import opened WaitList

  const RT_ALIGN_SIZE: int := 4
  const MESSAGE_HEADER: int := 4   // sizeof(struct rt_mq_message)
  const NULL: int := -1

  type Message = seq<int>

  /** Where a thread is in rt_mq_send, rt_mq_urgent or rt_mq_recv. */
  datatype Pc =
    | Idle
    | Taken(node: int, message: Message, urgent: bool)    // has a free node, has not copied yet
    | Filled(node: int, message: Message, urgent: bool)   // has copied, has not linked yet
    | Waiting                                             // suspended on the queue
    | Woken                                               // resumed by a sender, has not run yet
    | Failed                                              // resumed by a timeout or a reset
    | Received(node: int)                                 // has unlinked a node, has not copied out yet

  function Held(pc: Pc): (n: Option<int>) {
    match pc
    case Taken(n, _, _) => Some(n)
    case Filled(n, _, _) => Some(n)
    case Received(n) => Some(n)
    case _ => None
  }

  // ----- linked nodes -----

  /** Following `next` from `at` visits exactly the nodes of `list`. */
  ghost predicate Chain(next: map<int, int>, at: int, list: seq<int>)
    decreases list
  {
    if list == [] then at == NULL
    else at == list[0] && at != NULL && at in next && Chain(next, next[at], list[1..])
  }

  lemma {:induction false} ChainFrame(next: map<int, int>, at: int, list: seq<int>, n: int, m: int)
    requires Chain(next, at, list) && n !in list
    ensures Chain(next[n := m], at, list)
    decreases list
  {
    if list != [] { ChainFrame(next, next[at], list[1..], n, m); }
  }

  /** Linking a node behind the last one. */
  lemma {:induction false} ChainAppend(next: map<int, int>, at: int, list: seq<int>, n: int)
    requires Chain(next, at, list) && list != [] && n !in list && n != NULL
    requires n in next && next[n] == NULL
    requires forall i, j :: 0 <= i < j < |list| ==> list[i] != list[j]
    ensures Chain(next[list[|list| - 1] := n], at, list + [n])
    decreases list
  {
    var last := list[|list| - 1];
    var next' := next[last := n];
    assert (list + [n])[1..] == list[1..] + [n];
    if |list| == 1 {
      assert Chain(next', NULL, []) && Chain(next', n, [n]);
    } else {
      assert list[1..][|list| - 2] == last;
      ChainAppend(next, next[at], list[1..], n);
    }
  }

  // ----- the pool -----

  /** Which part of the pool a node belongs to. */
  datatype Part = FreePart | QueuePart | HandOf(t: Tid)

  /** Every node of the pool is in exactly one place: free, queued, or in one thread's hand. */
  ghost predicate Partition(part: map<int, Part>, max: nat, free: seq<int>, queue: seq<int>, pc: map<Tid, Pc>) {
    && (forall n :: n in part <==> 0 <= n < max)
    && Distinct(free) && Distinct(queue)
    && (forall n :: n in free <==> n in part && part[n] == FreePart)
    && (forall n :: n in queue <==> n in part && part[n] == QueuePart)
    && (forall t :: t in pc && Held(pc[t]).Some? ==>
          Held(pc[t]).value in part && part[Held(pc[t]).value] == HandOf(t))
    && (forall n :: n in part && part[n].HandOf? ==>
          part[n].t in pc && Held(pc[part[n].t]) == Some(n))
  }

  /** A node moves from the free list to a thread's hand. */
  lemma FreeToHand(part: map<int, Part>, max: nat, free: seq<int>, queue: seq<int>, pc: map<Tid, Pc>, t: Tid, p: Pc)
    requires Partition(part, max, free, queue, pc) && free != [] && t in pc && Held(pc[t]).None?
    requires Held(p) == Some(free[0])
    ensures Partition(part[free[0] := HandOf(t)], max, free[1..], queue, pc[t := p])
  {
    assert free[0] in free;
    assert forall n :: n in free[1..] <==> n in free && n != free[0];
  }

  lemma HandToFree(part: map<int, Part>, max: nat, free: seq<int>, queue: seq<int>, pc: map<Tid, Pc>, t: Tid, n: int,
                   p: Pc)
    requires Partition(part, max, free, queue, pc) && t in pc && Held(pc[t]) == Some(n) && Held(p).None?
    ensures Partition(part[n := FreePart], max, [n] + free, queue, pc[t := p])
  {
    assert forall m :: m in [n] + free <==> m in free || m == n;
  }

  lemma HandToQueue(part: map<int, Part>, max: nat, free: seq<int>, queue: seq<int>, pc: map<Tid, Pc>,
                    t: Tid, n: int, p: Pc, queue': seq<int>)
    requires Partition(part, max, free, queue, pc) && t in pc && Held(pc[t]) == Some(n) && Held(p).None?
    requires queue' == queue + [n] || queue' == [n] + queue
    ensures Partition(part[n := QueuePart], max, free, queue', pc[t := p])
  {
    assert forall m :: m in queue' <==> m in queue || m == n;
  }

  lemma QueueToHand(part: map<int, Part>, max: nat, free: seq<int>, queue: seq<int>, pc: map<Tid, Pc>, t: Tid, p: Pc)
    requires Partition(part, max, free, queue, pc) && queue != [] && t in pc && Held(pc[t]).None?
    requires Held(p) == Some(queue[0])
    ensures Partition(part[queue[0] := HandOf(t)], max, free, queue[1..], pc[t := p])
  {
    assert queue[0] in queue;
    assert forall n :: n in queue[1..] <==> n in queue && n != queue[0];
  }

  lemma QueueToFree(part: map<int, Part>, max: nat, free: seq<int>, queue: seq<int>, pc: map<Tid, Pc>)
    requires Partition(part, max, free, queue, pc) && queue != []
    ensures Partition(part[queue[0] := FreePart], max, [queue[0]] + free, queue[1..], pc)
  {
    assert queue[0] in queue;
    assert forall n :: n in queue[1..] <==> n in queue && n != queue[0];
    assert forall n :: n in [queue[0]] + free <==> n in free || n == queue[0];
  }

  /** A thread that changes state without a node changing hands. */
  lemma SameHands(part: map<int, Part>, max: nat, free: seq<int>, queue: seq<int>, pc: map<Tid, Pc>, t: Tid, p: Pc)
    requires Partition(part, max, free, queue, pc) && t in pc && Held(p) == Held(pc[t])
    ensures Partition(part, max, free, queue, pc[t := p])
  {
  }

  // ----- who is waiting, who has been woken -----

  ghost function WokenSet(pc: map<Tid, Pc>): (ts: set<Tid>) {
    set t | t in pc && pc[t].Woken?
  }

  ghost predicate Waiters(waiters: seq<Tid>, pc: map<Tid, Pc>) {
    Distinct(waiters) && forall t :: t in waiters <==> t in pc && pc[t].Waiting?
  }

  /** While somebody waits, every message has a woken receiver on its way to it. */
  ghost predicate NoLostWakeup(waiters: seq<Tid>, entry: int, pc: map<Tid, Pc>) {
    waiters != [] ==> entry <= |WokenSet(pc)|
  }

  /** A thread that neither was waiting nor is now leaves the waiting list as it is. */
  lemma WaitersStep(waiters: seq<Tid>, pc: map<Tid, Pc>, t: Tid, p: Pc)
    requires Waiters(waiters, pc) && t in pc && !pc[t].Waiting? && !p.Waiting?
    ensures Waiters(waiters, pc[t := p])
  {
  }

  lemma WokenChange(pc: map<Tid, Pc>, t: Tid, p: Pc)
    requires t in pc
    ensures WokenSet(pc[t := p]) == if p.Woken? then WokenSet(pc) + {t} else WokenSet(pc) - {t}
    ensures !pc[t].Woken? && !p.Woken? ==> WokenSet(pc[t := p]) == WokenSet(pc)
    ensures !pc[t].Woken? && p.Woken? ==> |WokenSet(pc[t := p])| == |WokenSet(pc)| + 1
    ensures pc[t].Woken? && !p.Woken? ==> |WokenSet(pc[t := p])| == |WokenSet(pc)| - 1
  {
    var before, after := WokenSet(pc), WokenSet(pc[t := p]);
    assert after == if p.Woken? then before + {t} else before - {t};
  }

  // ----- the queue object -----

  /** struct rt_messagequeue with its pool of nodes, and the threads that use it. */
  datatype Fields = Fields(
    next: map<int, int>, content: map<int, Message>,
    head: int, tail: int, free: int, entry: int,
    waiters: seq<Tid>, pc: map<Tid, Pc>)

  /** What the fields stand for: the nodes of both lists, every node's place, what receivers were handed. */
  datatype View = View(queue: seq<int>, freeList: seq<int>, part: map<int, Part>, got: map<Tid, Message>)

  ghost predicate Sound(q: Fields, v: View, max: nat, size: nat) {
    && Partition(v.part, max, v.freeList, v.queue, q.pc)
    && Linked(q.next, q.head, q.tail, q.free, v.queue, v.freeList)
    && Buffers(q.content, max, size)
    && Hands(q.pc, q.next, q.content, size, v.got)
    && q.entry == |v.queue|
    && Waiters(q.waiters, q.pc)
  }

  /** The messages in the queue, first to last. */
  ghost function Contents(q: Fields, v: View): (ms: seq<Message>) {
    Payloads(v.queue, q.content)
  }

  /** The queue and the free list are chains of nodes, and `tail` is the last node of the queue. */
  ghost predicate Linked(next: map<int, int>, head: int, tail: int, free: int, queue: seq<int>, freeList: seq<int>) {
    && Chain(next, head, queue) && Chain(next, free, freeList)
    && tail == if queue == [] then NULL else queue[|queue| - 1]
  }

  ghost predicate Buffers(content: map<int, Message>, max: nat, size: nat) {
    forall n :: 0 <= n < max ==> n in content && |content[n]| == size
  }

  /** What threads know of the nodes in their hands. */
  ghost predicate Hands(pc: map<Tid, Pc>, next: map<int, int>, content: map<int, Message>, size: nat,
                        got: map<Tid, Message>)
  {
    forall t :: t in pc ==> Hand(t, pc[t], next, content, size, got)
  }

  ghost predicate Hand(t: Tid, p: Pc, next: map<int, int>, content: map<int, Message>, size: nat,
                       got: map<Tid, Message>)
  {
    match p
    case Taken(n, m, _) => |m| <= size
    case Filled(n, m, urgent) =>
      && |m| <= size && n in content && |content[n]| == size && content[n][..|m|] == m
      && (!urgent ==> n in next && next[n] == NULL)
    case Received(n) => t in got && n in content && content[n] == got[t]
    case _ => true
  }

  lemma HandsStep(pc: map<Tid, Pc>, next: map<int, int>, content: map<int, Message>, size: nat, got: map<Tid, Message>,
                  t: Tid, p: Pc)
    requires Hands(pc, next, content, size, got) && Hand(t, p, next, content, size, got)
    ensures Hands(pc[t := p], next, content, size, got)
  {
  }

  lemma HandAt(pc: map<Tid, Pc>, next: map<int, int>, content: map<int, Message>, size: nat, got: map<Tid, Message>,
               t: Tid)
    requires Hands(pc, next, content, size, got) && t in pc
    ensures Hand(t, pc[t], next, content, size, got)
  {
  }

  lemma PartitionFacts(part: map<int, Part>, max: nat, free: seq<int>, queue: seq<int>, pc: map<Tid, Pc>)
    requires Partition(part, max, free, queue, pc)
    ensures Distinct(free) && Distinct(queue)
    ensures forall x :: x in queue ==> x !in free && 0 <= x < max
  {
  }

  lemma PayloadsGrow(queue: seq<int>, content: map<int, Message>, n: int)
    requires n in content
    ensures Payloads([n] + queue, content) == [content[n]] + Payloads(queue, content)
    ensures Payloads(queue + [n], content) == Payloads(queue, content) + [content[n]]
  {
  }

  lemma FilledFacts(pc: map<Tid, Pc>, next: map<int, int>, content: map<int, Message>, size: nat,
                    got: map<Tid, Message>, t: Tid, n: int)
    requires Hands(pc, next, content, size, got) && t in pc && pc[t].Filled? && pc[t].node == n
    ensures n in content && (!pc[t].urgent ==> n in next && next[n] == NULL)
  {
    assert Hand(t, pc[t], next, content, size, got);
  }

  /** A node in a thread's hand is in no list. */
  lemma HandFacts(part: map<int, Part>, max: nat, free: seq<int>, queue: seq<int>, pc: map<Tid, Pc>, t: Tid, n: int)
    requires Partition(part, max, free, queue, pc) && t in pc && Held(pc[t]) == Some(n)
    ensures 0 <= n < max && n !in free && n !in queue
  {
  }

  /** Changes to the links of queued nodes and to a thread's own node disturb no other thread. */
  lemma HandsAlone(part: map<int, Part>, max: nat, free: seq<int>, queue: seq<int>, pc: map<Tid, Pc>,
                   next: map<int, int>, content: map<int, Message>, size: nat, got: map<Tid, Message>,
                   t: Tid, n: int, p: Pc, next': map<int, int>, content': map<int, Message>)
    requires Partition(part, max, free, queue, pc) && Hands(pc, next, content, size, got) && t in pc
    requires Held(pc[t]) == Some(n) && Hand(t, p, next', content', size, got)
    requires forall x :: x in next && x != n && x !in queue ==> x in next' && next'[x] == next[x]
    requires forall x :: x in content && x != n ==> x in content' && content'[x] == content[x]
    ensures Hands(pc[t := p], next', content', size, got)
  {
    forall u | u in pc && u != t
      ensures Hand(u, pc[u], next', content', size, got)
    {
      assert Hand(u, pc[u], next, content, size, got);
      if Held(pc[u]).Some? { assert part[Held(pc[u]).value] == HandOf(u) && part[n] == HandOf(t); }
    }
  }

  // ----- the lists change -----

  lemma PopFree(next: map<int, int>, head: int, tail: int, free: int, queue: seq<int>, freeList: seq<int>)
    requires Linked(next, head, tail, free, queue, freeList)
    ensures free == NULL <==> freeList == []
    ensures freeList != [] ==>
              free == freeList[0] && free in next && Linked(next, head, tail, next[free], queue, freeList[1..])
  {
  }

  lemma PushFree(next: map<int, int>, head: int, tail: int, free: int, queue: seq<int>, freeList: seq<int>, n: int)
    requires Linked(next, head, tail, free, queue, freeList) && n !in queue && n !in freeList && n != NULL
    ensures Linked(next[n := free], head, tail, n, queue, [n] + freeList)
  {
    ChainFrame(next, head, queue, n, free);
    ChainFrame(next, free, freeList, n, free);
    assert ([n] + freeList)[1..] == freeList;
  }

  lemma PopQueue(next: map<int, int>, head: int, tail: int, free: int, queue: seq<int>, freeList: seq<int>)
    requires Linked(next, head, tail, free, queue, freeList) && queue != [] && Distinct(queue)
    ensures head == queue[0] && head in next && head != NULL
    ensures Linked(next, next[head], if tail == head then NULL else tail, free, queue[1..], freeList)
  {
  }

  lemma LinkTail(next: map<int, int>, head: int, tail: int, free: int, queue: seq<int>, freeList: seq<int>, n: int)
    requires Linked(next, head, tail, free, queue, freeList) && Distinct(queue)
    requires n !in queue && n != NULL && n in next && next[n] == NULL
    requires forall x :: x in queue ==> x !in freeList
    ensures tail == NULL <==> queue == []
    ensures tail != NULL ==> tail in queue
    ensures Linked(if tail != NULL then next[tail := n] else next, if head == NULL then n else head, n, free,
                   queue + [n], freeList)
  {
    if queue == [] {
      assert Chain(next, NULL, []) && queue + [n] == [n] && [n][1..] == [];
    } else {
      assert tail in queue && head != NULL;
      TailNotNull(next, head, queue);
      ChainAppend(next, head, queue, n);
      ChainFrame(next, free, freeList, tail, n);
    }
  }

  lemma {:induction false} TailNotNull(next: map<int, int>, at: int, list: seq<int>)
    requires Chain(next, at, list)
    ensures NULL !in list
    decreases list
  {
    if list != [] { TailNotNull(next, next[at], list[1..]); }
  }

  lemma LinkHead(next: map<int, int>, head: int, tail: int, free: int, queue: seq<int>, freeList: seq<int>, n: int)
    requires Linked(next, head, tail, free, queue, freeList) && n !in queue && n !in freeList && n != NULL
    ensures Linked(next[n := head], n, if tail == NULL then n else tail, free, [n] + queue, freeList)
  {
    ChainFrame(next, head, queue, n, head);
    ChainFrame(next, free, freeList, n, head);
    assert ([n] + queue)[1..] == queue;
    TailNotNull(next, head, queue);
    assert queue != [] ==> tail in queue;
  }

  lemma LinkedFrame(next: map<int, int>, head: int, tail: int, free: int, queue: seq<int>, freeList: seq<int>, n: int,
                    m: int)
    requires Linked(next, head, tail, free, queue, freeList) && n !in queue && n !in freeList
    ensures Linked(next[n := m], head, tail, free, queue, freeList)
  {
    ChainFrame(next, head, queue, n, m);
    ChainFrame(next, free, freeList, n, m);
  }

  lemma PayloadsFrame(queue: seq<int>, content: map<int, Message>, n: int, m: Message)
    requires n !in queue
    ensures Payloads(queue, content[n := m]) == Payloads(queue, content)
  {
    assert forall i :: 0 <= i < |queue| ==> queue[i] in queue;
  }

  ghost function Payloads(queue: seq<int>, content: map<int, Message>): (ms: seq<Message>) {
    seq(|queue|, i requires 0 <= i < |queue| => if queue[i] in content then content[queue[i]] else [])
  }

  // ----- what each step does to a sound queue -----

  lemma TakeStep(q: Fields, v: View, max: nat, size: nat, t: Tid, m: Message, urgent: bool)
    requires Sound(q, v, max, size) && t in q.pc && q.pc[t].Idle? && |m| <= size
    ensures q.free == NULL <==> v.freeList == []
    ensures q.free != NULL ==>
              && q.free == v.freeList[0] && q.free in q.next
              && Sound(q.(free := q.next[q.free], pc := q.pc[t := Taken(q.free, m, urgent)]),
                       v.(freeList := v.freeList[1..], part := v.part[q.free := HandOf(t)]), max, size)
  {
    hide Partition, Linked, Hands, Waiters;
    PopFree(q.next, q.head, q.tail, q.free, v.queue, v.freeList);
    if q.free != NULL {
      var p := Taken(q.free, m, urgent);
      FreeToHand(v.part, max, v.freeList, v.queue, q.pc, t, p);
      HandsStep(q.pc, q.next, q.content, size, v.got, t, p);
      WaitersStep(q.waiters, q.pc, t, p);
    }
  }

  /** A node after its link has been cleared, which rt_mq_urgent leaves out, and a message copied in. */
  function CopiedNext(q: Fields, n: int, urgent: bool): (next: map<int, int>) {
    if urgent then q.next else q.next[n := NULL]
  }

  function CopiedIn(buffer: Message, m: Message): (r: Message)
    requires |m| <= |buffer|
  {
    m + buffer[|m|..]
  }

  lemma CopyStep(q: Fields, v: View, max: nat, size: nat, t: Tid)
    requires Sound(q, v, max, size) && t in q.pc && q.pc[t].Taken?
    ensures var Taken(n, m, urgent) := q.pc[t];
            && n in q.content && |m| <= |q.content[n]|
            && var q' := q.(next := CopiedNext(q, n, urgent), content := q.content[n := CopiedIn(q.content[n], m)],
                            pc := q.pc[t := Filled(n, m, urgent)]);
            Sound(q', v, max, size) && Contents(q', v) == Contents(q, v)
  {
    hide Partition, Linked, Hands, Waiters, Payloads;
    var Taken(n, m, urgent) := q.pc[t];
    HandFacts(v.part, max, v.freeList, v.queue, q.pc, t, n);
    HandAt(q.pc, q.next, q.content, size, v.got, t);
    var p, next, content := Filled(n, m, urgent), CopiedNext(q, n, urgent), q.content[n := CopiedIn(q.content[n], m)];
    LinkedFrame(q.next, q.head, q.tail, q.free, v.queue, v.freeList, n, NULL);
    PayloadsFrame(v.queue, q.content, n, CopiedIn(q.content[n], m));
    HandsAlone(v.part, max, v.freeList, v.queue, q.pc, q.next, q.content, size, v.got, t, n, p, next, content);
    SameHands(v.part, max, v.freeList, v.queue, q.pc, t, p);
    WaitersStep(q.waiters, q.pc, t, p);
  }

  lemma LinkFirstStep(q: Fields, v: View, max: nat, size: nat, t: Tid)
    requires Sound(q, v, max, size) && t in q.pc && q.pc[t].Filled? && q.pc[t].urgent
    ensures var n := q.pc[t].node;
            && n in q.content
            && var q' := q.(next := q.next[n := q.head], head := n, tail := if q.tail == NULL then n else q.tail,
                            entry := q.entry + 1, pc := q.pc[t := Idle]);
            var v' := v.(queue := [n] + v.queue, part := v.part[n := QueuePart]);
            Sound(q', v', max, size) && Contents(q', v') == [q.content[n]] + Contents(q, v)
  {
    hide Partition, Linked, Hands, Waiters, Payloads;
    var n := q.pc[t].node;
    WaitersStep(q.waiters, q.pc, t, Idle);
    HandFacts(v.part, max, v.freeList, v.queue, q.pc, t, n);
    FilledFacts(q.pc, q.next, q.content, size, v.got, t, n);
    HandToQueue(v.part, max, v.freeList, v.queue, q.pc, t, n, Idle, [n] + v.queue);
    PayloadsGrow(v.queue, q.content, n);
    LinkHead(q.next, q.head, q.tail, q.free, v.queue, v.freeList, n);
    HandsAlone(v.part, max, v.freeList, v.queue, q.pc, q.next, q.content, size, v.got, t, n, Idle,
               q.next[n := q.head], q.content);
  }

  lemma LinkLastStep(q: Fields, v: View, max: nat, size: nat, t: Tid)
    requires Sound(q, v, max, size) && t in q.pc && q.pc[t].Filled? && !q.pc[t].urgent
    ensures var n := q.pc[t].node;
            && n in q.content
            && var q' := q.(next := if q.tail != NULL then q.next[q.tail := n] else q.next, tail := n,
                            head := if q.head == NULL then n else q.head, entry := q.entry + 1, pc := q.pc[t := Idle]);
            var v' := v.(queue := v.queue + [n], part := v.part[n := QueuePart]);
            Sound(q', v', max, size) && Contents(q', v') == Contents(q, v) + [q.content[n]]
  {
    hide Partition, Linked, Hands, Waiters, Payloads;
    var n := q.pc[t].node;
    WaitersStep(q.waiters, q.pc, t, Idle);
    HandFacts(v.part, max, v.freeList, v.queue, q.pc, t, n);
    PartitionFacts(v.part, max, v.freeList, v.queue, q.pc);
    FilledFacts(q.pc, q.next, q.content, size, v.got, t, n);
    HandToQueue(v.part, max, v.freeList, v.queue, q.pc, t, n, Idle, v.queue + [n]);
    PayloadsGrow(v.queue, q.content, n);
    LinkTail(q.next, q.head, q.tail, q.free, v.queue, v.freeList, n);
    HandsAlone(v.part, max, v.freeList, v.queue, q.pc, q.next, q.content, size, v.got, t, n, Idle,
               if q.tail != NULL then q.next[q.tail := n] else q.next, q.content);
  }

  /** A thread changes state without touching a node; `waiters` follows. */
  lemma ThreadStep(q: Fields, v: View, max: nat, size: nat, t: Tid, p: Pc, waiters: seq<Tid>)
    requires Sound(q, v, max, size) && t in q.pc && Held(q.pc[t]).None? && Held(p).None?
    requires Waiters(waiters, q.pc[t := p])
    ensures Sound(q.(waiters := waiters, pc := q.pc[t := p]), v, max, size)
  {
    hide Partition, Linked, Hands, Waiters;
    SameHands(v.part, max, v.freeList, v.queue, q.pc, t, p);
    HandsStep(q.pc, q.next, q.content, size, v.got, t, p);
  }

  lemma UnlinkStep(q: Fields, v: View, max: nat, size: nat, t: Tid)
    requires Sound(q, v, max, size) && v.queue != [] && t in q.pc && (q.pc[t].Idle? || q.pc[t].Woken?)
    ensures q.head in q.next && q.head in q.content && Contents(q, v) != [] && q.content[q.head] == Contents(q, v)[0]
    ensures var q' := q.(head := q.next[q.head], tail := if q.tail == q.head then NULL else q.tail,
                         entry := q.entry - 1, pc := q.pc[t := Received(q.head)]);
            var v' := v.(queue := v.queue[1..], part := v.part[q.head := HandOf(t)],
                         got := v.got[t := q.content[q.head]]);
            Sound(q', v', max, size) && Contents(q', v') == Contents(q, v)[1..]
  {
    hide Partition, Linked, Hands, Waiters;
    PartitionFacts(v.part, max, v.freeList, v.queue, q.pc);
    PopQueue(q.next, q.head, q.tail, q.free, v.queue, v.freeList);
    assert q.head in v.queue;
    var p := Received(q.head);
    QueueToHand(v.part, max, v.freeList, v.queue, q.pc, t, p);
    HandsGot(q.pc, q.next, q.content, size, v.got, t, q.head);
    WaitersStep(q.waiters, q.pc, t, p);
  }

  lemma HandsGot(pc: map<Tid, Pc>, next: map<int, int>, content: map<int, Message>, size: nat, got: map<Tid, Message>,
                 t: Tid, n: int)
    requires Hands(pc, next, content, size, got) && n in content
    ensures Hands(pc[t := Received(n)], next, content, size, got[t := content[n]])
  {
    var pc', got' := pc[t := Received(n)], got[t := content[n]];
    forall u | u in pc'
      ensures Hand(u, pc'[u], next, content, size, got')
    {
      if u != t { assert Hand(u, pc[u], next, content, size, got); }
    }
  }

  lemma FinishStep(q: Fields, v: View, max: nat, size: nat, t: Tid)
    requires Sound(q, v, max, size) && t in q.pc && q.pc[t].Received?
    ensures var n := q.pc[t].node;
            && n in q.content && t in v.got && q.content[n] == v.got[t] && |q.content[n]| == size
            && var q' := q.(next := q.next[n := q.free], free := n, pc := q.pc[t := Idle]);
            var v' := v.(freeList := [n] + v.freeList, part := v.part[n := FreePart]);
            Sound(q', v', max, size)
  {
    hide Partition, Linked, Hands, Waiters;
    var n := q.pc[t].node;
    HandFacts(v.part, max, v.freeList, v.queue, q.pc, t, n);
    HandAt(q.pc, q.next, q.content, size, v.got, t);
    PushFree(q.next, q.head, q.tail, q.free, v.queue, v.freeList, n);
    HandToFree(v.part, max, v.freeList, v.queue, q.pc, t, n, Idle);
    HandsAlone(v.part, max, v.freeList, v.queue, q.pc, q.next, q.content, size, v.got, t, n, Idle,
               q.next[n := q.free], q.content);
    WaitersStep(q.waiters, q.pc, t, Idle);
  }

  /** One round of the loop that empties the queue on a reset. */
  lemma DrainStep(q: Fields, v: View, max: nat, size: nat)
    requires Sound(q, v, max, size)
    ensures q.head == NULL <==> v.queue == []
    ensures v.queue != [] ==>
              && q.head in q.next
              && Sound(q.(next := q.next[q.head := q.free], head := q.next[q.head], free := q.head,
                          entry := q.entry - 1, tail := if q.tail == q.head then NULL else q.tail),
                       v.(queue := v.queue[1..], freeList := [q.head] + v.freeList, part := v.part[q.head := FreePart]),
                       max, size)
  {
    hide Partition, Linked, Hands, Waiters;
    HeadNull(q.next, q.head, q.tail, q.free, v.queue, v.freeList);
    if v.queue != [] {
      PartitionFacts(v.part, max, v.freeList, v.queue, q.pc);
      PopQueue(q.next, q.head, q.tail, q.free, v.queue, v.freeList);
      assert q.head in v.queue && q.head !in v.queue[1..];
      PushFree(q.next, q.next[q.head], if q.tail == q.head then NULL else q.tail, q.free,
               v.queue[1..], v.freeList, q.head);
      QueueToFree(v.part, max, v.freeList, v.queue, q.pc);
      HandsApart(v.part, max, v.freeList, v.queue, q.pc, q.next, q.content, size, v.got, q.head, q.free);
    }
  }

  lemma HeadNull(next: map<int, int>, head: int, tail: int, free: int, queue: seq<int>, freeList: seq<int>)
    requires Linked(next, head, tail, free, queue, freeList)
    ensures head == NULL <==> queue == []
  {
  }

  lemma HandsApart(part: map<int, Part>, max: nat, free: seq<int>, queue: seq<int>, pc: map<Tid, Pc>,
                   next: map<int, int>, content: map<int, Message>, size: nat, got: map<Tid, Message>, n: int, m: int)
    requires Partition(part, max, free, queue, pc) && Hands(pc, next, content, size, got) && n in queue
    ensures Hands(pc, next[n := m], content, size, got)
  {
    forall u | u in pc
      ensures Hand(u, pc[u], next[n := m], content, size, got)
    {
      assert Hand(u, pc[u], next, content, size, got);
      if Held(pc[u]).Some? { assert part[Held(pc[u]).value] == HandOf(u) && part[n] == QueuePart; }
    }
  }

  /** The message a sender has copied begins its node's buffer. */
  lemma MessageInHand(q: Fields, v: View, max: nat, size: nat, t: Tid)
    requires Sound(q, v, max, size) && t in q.pc && q.pc[t].Filled?
    ensures q.pc[t].node in q.content && q.pc[t].message <= q.content[q.pc[t].node]
  {
    HandAt(q.pc, q.next, q.content, size, v.got, t);
    var Filled(n, m, _) := q.pc[t];
    assert m == q.content[n][..|m|];
  }

  /** The filled node becomes the new head. */
  method LinkFirst(q: Fields, ghost v: View, ghost max: nat, ghost size: nat, t: Tid)
    returns (m: Fields, ghost w: View)
    requires Sound(q, v, max, size) && t in q.pc && q.pc[t].Filled? && q.pc[t].urgent
    ensures Sound(m, w, max, size) && w.got == v.got
    ensures q.pc[t].node in q.content && Contents(m, w) == [q.content[q.pc[t].node]] + Contents(q, v)
    ensures m.waiters == q.waiters && m.pc == q.pc[t := Idle] && m.entry == q.entry + 1 && m.content == q.content
  {
    LinkFirstStep(q, v, max, size, t);
    hide Sound, Contents;
    var msg := q.pc[t].node;
    m := q.(next := q.next[msg := q.head]);
    m := m.(head := msg);
    if m.tail == NULL { m := m.(tail := msg); }
    m := m.(entry := m.entry + 1, pc := m.pc[t := Idle]);
    w := v.(queue := [msg] + v.queue, part := v.part[msg := QueuePart]);
  }

  /** The filled node becomes the new tail. */
  method LinkLast(q: Fields, ghost v: View, ghost max: nat, ghost size: nat, t: Tid)
    returns (m: Fields, ghost w: View)
    requires Sound(q, v, max, size) && t in q.pc && q.pc[t].Filled? && !q.pc[t].urgent
    ensures Sound(m, w, max, size) && w.got == v.got
    ensures q.pc[t].node in q.content && Contents(m, w) == Contents(q, v) + [q.content[q.pc[t].node]]
    ensures m.waiters == q.waiters && m.pc == q.pc[t := Idle] && m.entry == q.entry + 1 && m.content == q.content
  {
    LinkLastStep(q, v, max, size, t);
    hide Sound, Contents;
    var msg := q.pc[t].node;
    m := q;
    if m.tail != NULL { m := m.(next := m.next[m.tail := msg]); }
    m := m.(tail := msg);
    if m.head == NULL { m := m.(head := msg); }
    m := m.(entry := m.entry + 1, pc := m.pc[t := Idle]);
    w := v.(queue := v.queue + [msg], part := v.part[msg := QueuePart]);
  }

  /** The oldest message goes into the thread's hand. */
  method Unlink(q: Fields, ghost v: View, ghost max: nat, ghost size: nat, t: Tid)
    returns (m: Fields, ghost w: View)
    requires Sound(q, v, max, size) && t in q.pc && (q.pc[t].Idle? || q.pc[t].Woken?) && v.queue != []
    ensures Sound(m, w, max, size) && Contents(q, v) != []
    ensures Contents(m, w) == Contents(q, v)[1..] && w.got == v.got[t := Contents(q, v)[0]]
    ensures m.waiters == q.waiters && m.pc == q.pc[t := Received(q.head)] && m.entry == q.entry - 1
  {
    UnlinkStep(q, v, max, size, t);
    hide Sound, Contents;
    var msg := q.head;
    m := q.(head := q.next[msg]);
    if m.tail == msg { m := m.(tail := NULL); }
    m := m.(entry := m.entry - 1, pc := m.pc[t := Received(msg)]);
    w := v.(queue := v.queue[1..], part := v.part[msg := HandOf(t)], got := v.got[t := q.content[msg]]);
  }

  lemma ContentsSame(m: Fields, r: Fields, v: View)
    requires r.content == m.content
    ensures Contents(r, v) == Contents(m, v)
  {
  }

  lemma EntryIsLength(q: Fields, v: View, max: nat, size: nat)
    requires Sound(q, v, max, size)
    ensures q.entry == |Contents(q, v)| == |v.queue|
  {
  }

  lemma FirstLeaves(waiters: seq<Tid>, pc: map<Tid, Pc>, p: Pc)
    requires Waiters(waiters, pc) && waiters != [] && !p.Waiting?
    ensures waiters[0] in pc && pc[waiters[0]].Waiting?
    ensures Waiters(waiters[1..], pc[waiters[0] := p])
  {
    var t := waiters[0];
    assert t in waiters;
    assert t in pc && pc[t].Waiting?;
    assert forall x :: x in waiters[1..] <==> x in waiters && x != t;
  }

  lemma RestIfOrdered(waiters: seq<Tid>, prio: Priorities, flag: Flag)
    requires waiters != []
    ensures Ordered(waiters, prio, flag) ==> Ordered(waiters[1..], prio, flag)
  {
    if Ordered(waiters, prio, flag) { RestOrdered(waiters, prio, flag); }
  }

  lemma NobodyWaits(pc: map<Tid, Pc>)
    requires Waiters([], pc)
    ensures forall t :: t in pc ==> !pc[t].Waiting?
  {
    forall t | t in pc
      ensures !pc[t].Waiting?
    {
      assert t !in [];
    }
  }

  lemma SuspendedWaiters(waiters: seq<Tid>, pc: map<Tid, Pc>, t: Tid, prio: Priorities, flag: Flag)
    requires Waiters(waiters, pc) && t in pc && !pc[t].Waiting? && t in prio && Ordered(waiters, prio, flag)
    ensures Waiters(Suspended(waiters, t, prio, flag), pc[t := Waiting])
    ensures Ordered(Suspended(waiters, t, prio, flag), prio, flag)
  {
    SuspendedKeeps(waiters, t, prio, flag);
    SuspendedOrdered(waiters, t, prio, flag);
  }

  /** A thread leaves rt_mq_recv without a message. */
  lemma LeaveStep(q: Fields, v: View, max: nat, size: nat, t: Tid)
    requires Sound(q, v, max, size) && t in q.pc && (q.pc[t].Idle? || q.pc[t].Woken?)
    ensures Sound(q.(pc := q.pc[t := Idle]), v, max, size)
  {
    hide Partition, Linked, Hands, Waiters;
    WaitersStep(q.waiters, q.pc, t, Idle);
    ThreadStep(q, v, max, size, t, Idle, q.waiters);
  }

  lemma BlockStep(q: Fields, v: View, max: nat, size: nat, t: Tid, prio: Priorities, flag: Flag)
    requires Sound(q, v, max, size) && t in q.pc && (q.pc[t].Idle? || q.pc[t].Woken?)
    requires t in prio && Ordered(q.waiters, prio, flag)
    ensures Known(q.waiters, prio)
    ensures var list := Suspended(q.waiters, t, prio, flag);
            Sound(q.(waiters := list, pc := q.pc[t := Waiting]), v, max, size) && Ordered(list, prio, flag)
  {
    hide Partition, Linked, Hands, Waiters;
    SuspendedWaiters(q.waiters, q.pc, t, prio, flag);
    ThreadStep(q, v, max, size, t, Waiting, Suspended(q.waiters, t, prio, flag));
  }

  // ----- the steps, as the code takes them -----

  datatype Status = Done | Full | TooLong | TimedOut | Blocked

  /** The loop of rt_mq_init that puts every node on the free list. */
  method BuildPool(max: nat, size: nat)
    returns (next: map<int, int>, content: map<int, Message>, free: int, ghost freeList: seq<int>)
    ensures Chain(next, free, freeList) && |freeList| == max && Distinct(freeList) && Buffers(content, max, size)
    ensures forall n :: n in freeList <==> 0 <= n < max
  {
    next, content, free, freeList := map[], map[], NULL, [];
    for temp := 0 to max
      invariant Chain(next, free, freeList) && |freeList| == temp && Distinct(freeList) && Buffers(content, temp, size)
      invariant forall n :: n in freeList <==> 0 <= n < temp
    {
      ChainFrame(next, free, freeList, temp, free);
      assert ([temp] + freeList)[1..] == freeList;
      next := next[temp := free];
      content := content[temp := seq(size, _ => 0)];
      free, freeList := temp, [temp] + freeList;
    }
  }

  lemma EmptyIsSound(q: Fields, v: View, max: nat, size: nat)
    requires q.head == q.tail == NULL && q.entry == 0 && q.waiters == [] && v.queue == []
    requires Chain(q.next, q.free, v.freeList) && Distinct(v.freeList) && Buffers(q.content, max, size)
    requires forall n :: n in v.freeList <==> 0 <= n < max
    requires forall t :: t in q.pc ==> q.pc[t].Idle?
    requires forall n :: n in v.part <==> n in v.freeList
    requires forall n :: n in v.part ==> v.part[n] == FreePart
    ensures Sound(q, v, max, size)
  {
  }

  /** The nodes fit the pool, and one more would not. */
  lemma PoolHolds(poolSize: nat, node: nat)
    requires node > 0
    ensures poolSize / node >= 0 && poolSize / node * node <= poolSize < (poolSize / node + 1) * node
  {
    var n := poolSize / node;
    assert poolSize == n * node + poolSize % node && (n + 1) * node == n * node + node;
  }

  class Queue {
    const maxMsgs: nat
    const msgSize: nat
    const flag: Flag
    const prio: Priorities
    var q: Fields
    ghost var v: View

    ghost predicate Valid()
      reads this
    {
      && Sound(q, v, maxMsgs, msgSize)
      && NoLostWakeup(q.waiters, q.entry, q.pc)
      && q.pc.Keys == prio.Keys
      && Ordered(q.waiters, prio, flag)
    }

    /** rt_mq_init: as many nodes as the pool has room for, all on the free list, and nobody waiting. */
    constructor (size: nat, poolSize: nat, flag: Flag, prio: Priorities)
      ensures Valid() && Contents(q, v) == [] && q.entry == 0 && |v.freeList| == maxMsgs
      ensures size <= msgSize < size + RT_ALIGN_SIZE && msgSize % RT_ALIGN_SIZE == 0
      ensures maxMsgs * (msgSize + MESSAGE_HEADER) <= poolSize < (maxMsgs + 1) * (msgSize + MESSAGE_HEADER)
      ensures this.flag == flag && this.prio == prio
      ensures forall t :: t in prio ==> q.pc[t] == Idle
    {
      hide Partition, Linked, Hands;
      var msgSize := (size + RT_ALIGN_SIZE - 1) / RT_ALIGN_SIZE * RT_ALIGN_SIZE;
      var maxMsgs := poolSize / (msgSize + MESSAGE_HEADER);
      PoolHolds(poolSize, msgSize + MESSAGE_HEADER);
      this.maxMsgs, this.msgSize, this.flag, this.prio := maxMsgs, msgSize, flag, prio;
      var next, content, free;
      ghost var freeList;
      next, content, free, freeList := BuildPool(maxMsgs, msgSize);
      var m := Fields(next, content, NULL, NULL, free, 0, [], map t | t in prio :: Idle);
      ghost var w := View([], freeList, map n | n in freeList :: FreePart, map[]);
      EmptyIsSound(m, w, maxMsgs, msgSize);
      q, v := m, w;
    }

    /** First section of rt_mq_send and rt_mq_urgent: take a node off the free list. */
    method SendTake(t: Tid, message: Message, urgent: bool) returns (status: Status)
      requires Valid() && t in q.pc && q.pc[t].Idle?
      modifies this
      ensures Valid() && Contents(q, v) == old(Contents(q, v)) && v.got == old(v.got) && q.waiters == old(q.waiters)
      ensures status == if |message| > msgSize then TooLong else if old(v.freeList) == [] then Full else Done
      ensures q.pc == if status.Done? then old(q.pc)[t := Taken(old(v.freeList)[0], message, urgent)] else old(q.pc)
    {
      hide Sound, WokenSet;
      if |message| > msgSize { return TooLong; }
      TakeStep(q, v, maxMsgs, msgSize, t, message, urgent);
      var m := q;
      var msg := m.free;
      if msg == NULL { return Full; }
      WokenChange(q.pc, t, Taken(msg, message, urgent));
      m := m.(free := m.next[msg]);
      m := m.(pc := m.pc[t := Taken(msg, message, urgent)]);
      v := v.(freeList := v.freeList[1..], part := v.part[msg := HandOf(t)]);
      q := m;
      return Done;
    }

    /** Between the sections: the node's link is cleared (not by rt_mq_urgent) and the message copied in. */
    method SendCopy(t: Tid)
      requires Valid() && t in q.pc && q.pc[t].Taken?
      modifies this
      ensures Valid() && Contents(q, v) == old(Contents(q, v)) && v.got == old(v.got) && q.waiters == old(q.waiters)
      ensures q.pc == old(q.pc)[t := Filled(old(q.pc[t]).node, old(q.pc[t]).message, old(q.pc[t]).urgent)]
    {
      hide Sound, WokenSet, Contents;
      CopyStep(q, v, maxMsgs, msgSize, t);
      var Taken(n, message, urgent) := q.pc[t];
      WokenChange(q.pc, t, Filled(n, message, urgent));
      var m := q;
      if !urgent { m := m.(next := m.next[n := NULL]); }
      m := m.(content := m.content[n := CopiedIn(m.content[n], message)]);
      m := m.(pc := m.pc[t := Filled(n, message, urgent)]);
      q := m;
    }

    /** rt_ipc_list_resume on the queue's waiters, if there are any. */
    method WakeFirst(m: Fields) returns (r: Fields)
      requires Sound(m, v, maxMsgs, msgSize)
      ensures Sound(r, v, maxMsgs, msgSize)
      ensures m.waiters == [] ==> r == m
      ensures m.waiters != [] ==>
                m.waiters[0] in m.pc && r == m.(waiters := m.waiters[1..], pc := m.pc[m.waiters[0] := Woken])
      ensures m.waiters != [] ==> |WokenSet(r.pc)| == |WokenSet(m.pc)| + 1
      ensures Ordered(m.waiters, prio, flag) ==> Ordered(r.waiters, prio, flag)
    {
      r := m;
      if m.waiters != [] {
        var thread := m.waiters[0];
        assert thread in m.waiters;
        FirstLeaves(m.waiters, m.pc, Woken);
        RestIfOrdered(m.waiters, prio, flag);
        ThreadStep(m, v, maxMsgs, msgSize, thread, Woken, m.waiters[1..]);
        WokenChange(m.pc, thread, Woken);
        r := m.(waiters := m.waiters[1..], pc := m.pc[thread := Woken]);
      }
    }

    /** Second section of rt_mq_send and rt_mq_urgent: link the node, count it, wake the first waiter. */
    method SendLink(t: Tid)
      requires Valid() && t in q.pc && q.pc[t].Filled?
      modifies this
      ensures Valid() && v.got == old(v.got)
      ensures var m := old(q.content[q.pc[t].node]);
              && old(q.pc[t]).message <= m
              && Contents(q, v) == if old(q.pc[t]).urgent then [m] + old(Contents(q, v)) else old(Contents(q, v)) + [m]
      ensures q.waiters == if old(q.waiters) == [] then [] else old(q.waiters)[1..]
      ensures q.pc == if old(q.waiters) == [] then old(q.pc)[t := Idle]
                      else old(q.pc)[t := Idle][old(q.waiters)[0] := Woken]
    {
      hide Sound, WokenSet, Contents;
      MessageInHand(q, v, maxMsgs, msgSize, t);
      WokenChange(q.pc, t, Idle);
      var m;
      if q.pc[t].urgent {
        m, v := LinkFirst(q, v, maxMsgs, msgSize, t);
      } else {
        m, v := LinkLast(q, v, maxMsgs, msgSize, t);
      }
      q := WakeFirst(m);
      ContentsSame(m, q, v);
    }

    /** The loop test of rt_mq_recv, by a thread that has just called it or has been woken. */
    method Receive(t: Tid, wait: bool) returns (status: Status)
      requires Valid() && t in q.pc && (q.pc[t].Idle? || q.pc[t].Woken?)
      modifies this
      ensures Valid()
      ensures status == if old(Contents(q, v)) != [] then Done else if wait then Blocked else TimedOut
      ensures status.Done? ==>
                && Contents(q, v) == old(Contents(q, v))[1..] && v.got == old(v.got)[t := old(Contents(q, v))[0]]
                && q.pc == old(q.pc)[t := Received(old(q.head))] && q.waiters == old(q.waiters)
      ensures !status.Done? ==> Contents(q, v) == old(Contents(q, v)) && v.got == old(v.got)
      ensures status.Blocked? ==>
                && q.pc == old(q.pc)[t := Waiting]
                && Known(old(q.waiters), prio) && q.waiters == Suspended(old(q.waiters), t, prio, flag)
      ensures status.TimedOut? ==> q.pc == old(q.pc)[t := Idle] && q.waiters == old(q.waiters)
    {
      hide WokenSet, Sound, Contents, Ordered, Suspended, Known;
      EntryIsLength(q, v, maxMsgs, msgSize);
      if q.entry == 0 {
        status := FindNothing(t, wait);
        return;
      }
      WokenChange(q.pc, t, Received(q.head));
      q, v := Unlink(q, v, maxMsgs, msgSize, t);
      return Done;
    }

    /** The queue is empty: the thread gives up or waits. */
    method FindNothing(t: Tid, wait: bool) returns (status: Status)
      requires Valid() && t in q.pc && (q.pc[t].Idle? || q.pc[t].Woken?) && q.entry == 0
      modifies this`q
      ensures Valid() && Contents(q, v) == old(Contents(q, v))
      ensures status == if wait then Blocked else TimedOut
      ensures wait ==>
                && q.pc == old(q.pc)[t := Waiting]
                && Known(old(q.waiters), prio) && q.waiters == Suspended(old(q.waiters), t, prio, flag)
      ensures !wait ==> q.pc == old(q.pc)[t := Idle] && q.waiters == old(q.waiters)
    {
      hide WokenSet, Sound, Contents, Ordered, Suspended, Known;
      var m := q;
      if !wait {
        WokenChange(q.pc, t, Idle);
        LeaveStep(q, v, maxMsgs, msgSize, t);
        q := m.(pc := m.pc[t := Idle]);
        ContentsSame(m, q, v);
        return TimedOut;
      }
      BlockStep(q, v, maxMsgs, msgSize, t, prio, flag);
      var list := Suspend(m.waiters, t, prio, flag);
      q := m.(waiters := list, pc := m.pc[t := Waiting]);
      ContentsSame(m, q, v);
      return Blocked;
    }

    /** The rest of rt_mq_recv: copy the message out and give the node back. */
    method Finish(t: Tid, size: nat) returns (buffer: Message)
      requires Valid() && t in q.pc && q.pc[t].Received?
      modifies this
      ensures Valid() && v.got == old(v.got) && Contents(q, v) == old(Contents(q, v))
      ensures q.pc == old(q.pc)[t := Idle] && q.waiters == old(q.waiters)
      ensures t in v.got && |v.got[t]| == msgSize && buffer == v.got[t][..if size > msgSize then msgSize else size]
    {
      hide Sound, WokenSet;
      FinishStep(q, v, maxMsgs, msgSize, t);
      WokenChange(q.pc, t, Idle);
      var m, msg := q, q.pc[t].node;
      buffer := m.content[msg][..if size > msgSize then msgSize else size];
      m := m.(next := m.next[msg := m.free]);
      m := m.(free := msg);
      m := m.(pc := m.pc[t := Idle]);
      v := v.(freeList := [msg] + v.freeList, part := v.part[msg := FreePart]);
      q := m;
    }

    /** rt_thread_timeout on a waiting receiver. */
    method Timeout(t: Tid)
      requires Valid() && t in q.pc && q.pc[t].Waiting?
      modifies this
      ensures Valid() && v == old(v) && Contents(q, v) == old(Contents(q, v))
      ensures q.pc == old(q.pc)[t := Failed] && q.waiters == Without(old(q.waiters), t)
    {
      hide WokenSet, Partition, Linked, Hands;
      WokenChange(q.pc, t, Failed);
      WithoutKeeps(q.waiters, t);
      WithoutOrdered(q.waiters, t, prio, flag);
      ThreadStep(q, v, maxMsgs, msgSize, t, Failed, Without(q.waiters, t));
      q := q.(waiters := Without(q.waiters, t), pc := q.pc[t := Failed]);
    }

    /** A thread that was resumed with an error returns it. */
    method ReturnError(t: Tid)
      requires Valid() && t in q.pc && q.pc[t].Failed?
      modifies this
      ensures Valid() && v == old(v) && Contents(q, v) == old(Contents(q, v))
      ensures q.pc == old(q.pc)[t := Idle] && q.waiters == old(q.waiters)
    {
      hide WokenSet, Partition, Linked, Hands;
      WokenChange(q.pc, t, Idle);
      ThreadStep(q, v, maxMsgs, msgSize, t, Idle, q.waiters);
      q := q.(pc := q.pc[t := Idle]);
    }

    /** rt_mq_control(RT_IPC_CMD_RESET): fail all waiters and free all queued nodes, not those in hand. */
    method Reset()
      requires Valid()
      modifies this
      ensures Valid() && Contents(q, v) == [] && q.waiters == [] && v.got == old(v.got)
      ensures q.pc.Keys == old(q.pc.Keys)
      ensures forall t :: t in q.pc ==> q.pc[t] == if old(q.pc[t]).Waiting? then Failed else old(q.pc[t])
    {
      hide WokenSet, Partition, Linked, Hands;
      var m := q;
      while m.waiters != []
        invariant Sound(m, v, maxMsgs, msgSize) && v == old(v) && m.pc.Keys == old(q.pc.Keys)
        invariant forall t :: t in m.pc ==> m.pc[t] == old(q.pc[t]) || (old(q.pc[t]).Waiting? && m.pc[t] == Failed)
        decreases |m.waiters|
      {
        var thread := m.waiters[0];
        assert thread in m.waiters;
        FirstLeaves(m.waiters, m.pc, Failed);
        ThreadStep(m, v, maxMsgs, msgSize, thread, Failed, m.waiters[1..]);
        m := m.(waiters := m.waiters[1..], pc := m.pc[thread := Failed]);
      }
      ghost var pc := m.pc;
      NobodyWaits(m.pc);
      assert forall t :: t in pc ==> pc[t] == if old(q.pc[t]).Waiting? then Failed else old(q.pc[t]);
      DrainStep(m, v, maxMsgs, msgSize);
      while m.head != NULL
        invariant Sound(m, v, maxMsgs, msgSize) && m.pc == pc && m.waiters == [] && v.got == old(v.got)
        invariant m.head == NULL <==> v.queue == []
        decreases |v.queue|
      {
        DrainStep(m, v, maxMsgs, msgSize);
        var msg := m.head;
        m := m.(head := m.next[msg]);
        if m.tail == msg { m := m.(tail := NULL); }
        m := m.(next := m.next[msg := m.free]);
        m := m.(free := msg);
        v := v.(queue := v.queue[1..], freeList := [msg] + v.freeList, part := v.part[msg := FreePart]);
        m := m.(entry := m.entry - 1);
        DrainStep(m, v, maxMsgs, msgSize);
      }
      m := m.(entry := 0);
      q := m;
    }
  }
}
