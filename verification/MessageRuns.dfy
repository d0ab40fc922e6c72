/** Whole runs of the message queue: any threads, in any interleaving of their steps. */
module MessageRuns {
  import opened Lists
  import opened WaitList
  import opened MessageQueue
  import Spec = MessageSpec

  // ----- what holds between steps -----

  /** If somebody waits and nobody has just been woken, there is nothing to receive. */
  lemma WaitingMeansEmpty(q: Fields, v: View, max: nat, size: nat)
    requires Sound(q, v, max, size) && NoLostWakeup(q.waiters, q.entry, q.pc)
    requires q.waiters != [] && forall t :: t in q.pc ==> !q.pc[t].Woken?
    ensures Contents(q, v) == []
  {
    EntryIsLength(q, v, max, size);
    assert forall t :: t !in WokenSet(q.pc);
  }

  ghost function Holders(pc: map<Tid, Pc>): (ts: set<Tid>) {
    set t | t in pc && Held(pc[t]).Some?
  }

  /** No node is ever lost: free, queued and held nodes make up the pool. */
  lemma NodesConserved(q: Fields, v: View, max: nat, size: nat)
    requires Sound(q, v, max, size)
    ensures |v.freeList| + |v.queue| + |Holders(q.pc)| == max
  {
    var hands := HandNodes(v.part);
    ElementsCount(v.freeList);
    ElementsCount(v.queue);
    HandsCount(hands, Holders(q.pc), v.part, q.pc);
    PartsAddUp(v.part, max, v.freeList, v.queue, q.pc);
  }

  ghost function HandNodes(part: map<int, Part>): (ns: set<int>) {
    set n | n in part && part[n].HandOf?
  }

  ghost function Below(max: nat): (ns: set<int>) {
    if max == 0 then {} else Below(max - 1) + {max - 1}
  }

  lemma {:induction false} BelowCount(max: nat)
    ensures |Below(max)| == max && forall n :: n in Below(max) <==> 0 <= n < max
  {
    if max > 0 { BelowCount(max - 1); }
  }

  lemma PartOf(part: map<int, Part>, max: nat, free: seq<int>, queue: seq<int>, pc: map<Tid, Pc>, n: int)
    requires Partition(part, max, free, queue, pc)
    ensures 0 <= n < max <==> n in Elements(free) || n in Elements(queue) || n in HandNodes(part)
  {
    if n in part { assert part[n] == FreePart || part[n] == QueuePart || part[n].HandOf?; }
  }

  lemma PartsAddUp(part: map<int, Part>, max: nat, free: seq<int>, queue: seq<int>, pc: map<Tid, Pc>)
    requires Partition(part, max, free, queue, pc)
    ensures |Elements(free)| + |Elements(queue)| + |HandNodes(part)| == max
  {
    BelowCount(max);
    var a, b, c := Elements(free), Elements(queue), HandNodes(part);
    assert forall n :: n !in a * b;
    assert forall n :: n !in (a + b) * c;
    forall n
      ensures n in a + b + c <==> n in Below(max)
    {
      PartOf(part, max, free, queue, pc, n);
    }
    assert a + b + c == Below(max);
  }

  /** Hands and the threads they belong to pair up. */
  lemma {:induction false} HandsCount(hands: set<int>, holders: set<Tid>, part: map<int, Part>, pc: map<Tid, Pc>)
    requires forall n :: n in hands ==> n in part && part[n].HandOf? && part[n].t in holders
    requires forall t :: t in holders ==> t in pc && Held(pc[t]).Some? && Held(pc[t]).value in hands
    requires forall n :: n in hands ==> part[n].t in pc && Held(pc[part[n].t]) == Some(n)
    requires forall t :: t in holders ==> part[Held(pc[t]).value] == HandOf(t)
    ensures |hands| == |holders|
    decreases hands
  {
    if n :| n in hands {
      HandsCount(hands - {n}, holders - {part[n].t}, part, pc);
    } else {
      assert forall n :: n !in hands;
      assert forall t :: t !in holders;
    }
  }

  // ----- the queue and what its callers see -----

  ghost predicate PcMatches(t: Tid, sp: Spec.Pc, p: Pc, got: map<Tid, Message>) {
    match p
    case Idle => sp.Idle?
    case Taken(_, m, urgent) => sp == Spec.Sending(m, urgent)
    case Filled(_, m, urgent) => sp == Spec.Copied(m, urgent)
    case Waiting => sp.Waiting?
    case Woken => sp.Woken?
    case Failed => sp.Failed?
    case Received(_) => sp.Holding? && t in got && sp.message <= got[t]
  }

  ghost predicate PcsMatch(spc: map<Tid, Spec.Pc>, pc: map<Tid, Pc>, got: map<Tid, Message>) {
    spc.Keys == pc.Keys && forall t :: t in pc ==> PcMatches(t, spc[t], pc[t], got)
  }

  /** Each buffer begins with the message it carries. */
  ghost predicate Carry(contents: seq<Message>, messages: seq<Message>) {
    |contents| == |messages| && forall i :: 0 <= i < |messages| ==> messages[i] <= contents[i]
  }

  /** The queue object is in the state that the specification is in. */
  ghost predicate Simulates(a: Spec.State, q: Fields, v: View) {
    Carry(Contents(q, v), a.queue) && a.waiters == q.waiters && PcsMatch(a.pc, q.pc, v.got)
  }

  ghost function Abstraction(q: Fields, v: View): (a: Spec.State) {
    Spec.State(Contents(q, v), q.waiters, map t | t in q.pc :: AbstractPc(t, q.pc[t], v.got))
  }

  ghost function AbstractPc(t: Tid, p: Pc, got: map<Tid, Message>): (sp: Spec.Pc) {
    match p
    case Idle => Spec.Idle
    case Taken(_, m, urgent) => Spec.Sending(m, urgent)
    case Filled(_, m, urgent) => Spec.Copied(m, urgent)
    case Waiting => Spec.Waiting
    case Woken => Spec.Woken
    case Failed => Spec.Failed
    case Received(_) => Spec.Holding(if t in got then got[t] else [])
  }

  lemma AbstractionSimulates(q: Fields, v: View, max: nat, size: nat)
    requires Sound(q, v, max, size)
    ensures Simulates(Abstraction(q, v), q, v)
  {
    hide Partition, Linked;
    forall t | t in q.pc
      ensures PcMatches(t, Abstraction(q, v).pc[t], q.pc[t], v.got)
    {
      HandAt(q.pc, q.next, q.content, size, v.got, t);
    }
  }

  /** The thread is where it can take this step next. */
  predicate Enabled(s: Spec.Step, pc: map<Tid, Pc>) {
    s.Resets? || (s.t in pc && match s
                               case SendTakes(t, _, _) => pc[t].Idle?
                               case SendCopies(t) => pc[t].Taken?
                               case SendLinks(t) => pc[t].Filled?
                               case Receives(t, _) => pc[t].Idle? || pc[t].Woken?
                               case Finishes(t, _) => pc[t].Received?
                               case TimesOut(t) => pc[t].Waiting?
                               case ReturnsError(t) => pc[t].Failed?)
  }

  lemma SameEnabled(s: Spec.Step, spc: map<Tid, Spec.Pc>, pc: map<Tid, Pc>, got: map<Tid, Message>)
    requires PcsMatch(spc, pc, got)
    ensures Enabled(s, pc) <==> Spec.Enabled(s, spc)
  {
    if !s.Resets? && s.t in pc { assert PcMatches(s.t, spc[s.t], pc[s.t], got); }
  }

  lemma SameHolders(spc: map<Tid, Spec.Pc>, pc: map<Tid, Pc>, got: map<Tid, Message>)
    requires PcsMatch(spc, pc, got)
    ensures Spec.Holders(spc) == Holders(pc)
  {
    forall t
      ensures t in Spec.Holders(spc) <==> t in Holders(pc)
    {
      if t in pc { assert PcMatches(t, spc[t], pc[t], got); }
    }
  }

  /** One thread moves on, on both sides. */
  lemma PcMoves(spc: map<Tid, Spec.Pc>, pc: map<Tid, Pc>, got: map<Tid, Message>, t: Tid, sp: Spec.Pc, p: Pc,
                got': map<Tid, Message>)
    requires PcsMatch(spc, pc, got) && t in pc && PcMatches(t, sp, p, got')
    requires forall u :: u != t && u in got ==> u in got' && got'[u] == got[u]
    ensures PcsMatch(spc[t := sp], pc[t := p], got')
  {
    forall u | u in pc && u != t
      ensures PcMatches(u, spc[u], pc[u], got')
    {
      assert PcMatches(u, spc[u], pc[u], got);
    }
  }

  lemma PcAt(spc: map<Tid, Spec.Pc>, pc: map<Tid, Pc>, got: map<Tid, Message>, t: Tid)
    requires PcsMatch(spc, pc, got) && t in pc
    ensures PcMatches(t, spc[t], pc[t], got)
  {
  }

  ghost function SetupOf(mq: Queue): (k: Spec.Setup) {
    Spec.Setup(mq.maxMsgs, mq.msgSize, mq.prio, mq.flag)
  }

  // ----- runs -----

  datatype Output = NoOutput | Output(buffer: Message)

  /** What is copied out begins like the message, or is as much of it as was asked for. */
  ghost predicate Agrees(out: Output, message: Message, size: nat, msgSize: nat) {
    && out.Output? && |out.buffer| == (if size > msgSize then msgSize else size)
    && (out.buffer <= message || message <= out.buffer)
  }

  /** A sender asks for a node. */
  method ActTake(mq: Queue, s: Spec.Step, ghost a: Spec.State)
    requires mq.Valid() && Simulates(a, mq.q, mq.v) && s.SendTakes? && Enabled(s, mq.q.pc)
    modifies mq
    ensures mq.Valid() && Spec.Good(a, SetupOf(mq)) && Simulates(Spec.Next(a, s, SetupOf(mq)), mq.q, mq.v)
  {
    hide Sound, Contents, NoLostWakeup, Carry, PcsMatch;
    StartsGood(mq.q, mq.v, a, SetupOf(mq));
    SameEnabled(s, a.pc, mq.q.pc, mq.v.got);
    SameHolders(a.pc, mq.q.pc, mq.v.got);
    EntryIsLength(mq.q, mq.v, mq.maxMsgs, mq.msgSize);
    CarryLength(Contents(mq.q, mq.v), a.queue);
    NodesConserved(mq.q, mq.v, mq.maxMsgs, mq.msgSize);
    ghost var before := mq.q.pc;
    var status := mq.SendTake(s.t, s.message, s.urgent);
    if status.Done? {
      PcMoves(a.pc, before, mq.v.got, s.t, Spec.Sending(s.message, s.urgent), mq.q.pc[s.t], mq.v.got);
    }
  }

  lemma StartsGood(q: Fields, v: View, a: Spec.State, k: Spec.Setup)
    requires Simulates(a, q, v) && q.pc.Keys == k.prio.Keys && Ordered(q.waiters, k.prio, k.flag)
    ensures Spec.Good(a, k)
  {
  }

  lemma CarryLength(contents: seq<Message>, messages: seq<Message>)
    requires Carry(contents, messages)
    ensures |contents| == |messages|
  {
  }

  method ActCopy(mq: Queue, s: Spec.Step, ghost a: Spec.State)
    requires mq.Valid() && Simulates(a, mq.q, mq.v) && s.SendCopies? && Enabled(s, mq.q.pc)
    modifies mq
    ensures mq.Valid() && Spec.Good(a, SetupOf(mq)) && Simulates(Spec.Next(a, s, SetupOf(mq)), mq.q, mq.v)
  {
    hide Sound, Contents, NoLostWakeup, Carry, PcsMatch;
    StartsGood(mq.q, mq.v, a, SetupOf(mq));
    SameEnabled(s, a.pc, mq.q.pc, mq.v.got);
    PcAt(a.pc, mq.q.pc, mq.v.got, s.t);
    ghost var before := mq.q.pc;
    mq.SendCopy(s.t);
    PcMoves(a.pc, before, mq.v.got, s.t, Spec.Copied(a.pc[s.t].message, a.pc[s.t].urgent), mq.q.pc[s.t], mq.v.got);
  }

  method ActLink(mq: Queue, s: Spec.Step, ghost a: Spec.State)
    requires mq.Valid() && Simulates(a, mq.q, mq.v) && s.SendLinks? && Enabled(s, mq.q.pc)
    modifies mq
    ensures mq.Valid() && Spec.Good(a, SetupOf(mq)) && Simulates(Spec.Next(a, s, SetupOf(mq)), mq.q, mq.v)
  {
    hide Sound, Contents, NoLostWakeup, PcsMatch;
    StartsGood(mq.q, mq.v, a, SetupOf(mq));
    SameEnabled(s, a.pc, mq.q.pc, mq.v.got);
    PcAt(a.pc, mq.q.pc, mq.v.got, s.t);
    ghost var before, waiters := mq.q.pc, mq.q.waiters;
    FirstWaits(mq.q, mq.v, mq.maxMsgs, mq.msgSize);
    mq.SendLink(s.t);
    PcMoves(a.pc, before, mq.v.got, s.t, Spec.Idle, Idle, mq.v.got);
    if waiters != [] {
      PcMoves(a.pc[s.t := Spec.Idle], before[s.t := Idle], mq.v.got, waiters[0], Spec.Woken, Woken, mq.v.got);
    }
  }

  lemma FirstWaits(q: Fields, v: View, max: nat, size: nat)
    requires Sound(q, v, max, size)
    ensures q.waiters != [] ==> q.waiters[0] in q.pc
  {
    if q.waiters != [] {
      var t := q.waiters[0];
      assert t in q.waiters;
    }
  }

  method ActReceive(mq: Queue, s: Spec.Step, ghost a: Spec.State)
    requires mq.Valid() && Simulates(a, mq.q, mq.v) && s.Receives? && Enabled(s, mq.q.pc)
    modifies mq
    ensures mq.Valid() && Spec.Good(a, SetupOf(mq)) && Simulates(Spec.Next(a, s, SetupOf(mq)), mq.q, mq.v)
  {
    hide Sound, Contents, NoLostWakeup, PcsMatch;
    StartsGood(mq.q, mq.v, a, SetupOf(mq));
    SameEnabled(s, a.pc, mq.q.pc, mq.v.got);
    ghost var before, got := mq.q.pc, mq.v.got;
    var status := mq.Receive(s.t, s.wait);
    ghost var sp := if status.Done? then Spec.Holding(a.queue[0]) else if s.wait then Spec.Waiting else Spec.Idle;
    PcMoves(a.pc, before, got, s.t, sp, mq.q.pc[s.t], mq.v.got);
  }

  method ActFinish(mq: Queue, s: Spec.Step, ghost a: Spec.State) returns (out: Output)
    requires mq.Valid() && Simulates(a, mq.q, mq.v) && s.Finishes? && Enabled(s, mq.q.pc)
    modifies mq
    ensures mq.Valid() && Spec.Good(a, SetupOf(mq)) && Simulates(Spec.Next(a, s, SetupOf(mq)), mq.q, mq.v)
    ensures Spec.Enabled(s, a.pc) && Agrees(out, a.pc[s.t].message, s.size, mq.msgSize)
  {
    hide Sound, Contents, NoLostWakeup, Carry, PcsMatch;
    StartsGood(mq.q, mq.v, a, SetupOf(mq));
    SameEnabled(s, a.pc, mq.q.pc, mq.v.got);
    PcAt(a.pc, mq.q.pc, mq.v.got, s.t);
    ghost var before := mq.q.pc;
    var buffer := mq.Finish(s.t, s.size);
    PcMoves(a.pc, before, mq.v.got, s.t, Spec.Idle, Idle, mq.v.got);
    PrefixesAgree(buffer, a.pc[s.t].message, mq.v.got[s.t]);
    out := Output(buffer);
  }

  lemma PrefixesAgree(a: Message, b: Message, whole: Message)
    requires a <= whole && b <= whole
    ensures a <= b || b <= a
  {
    if |a| <= |b| { assert a == whole[..|a|] == b[..|a|]; } else { assert b == whole[..|b|] == a[..|b|]; }
  }

  /** A waiter times out, or a thread that failed returns. */
  method ActLeave(mq: Queue, s: Spec.Step, ghost a: Spec.State)
    requires mq.Valid() && Simulates(a, mq.q, mq.v) && (s.TimesOut? || s.ReturnsError?) && Enabled(s, mq.q.pc)
    modifies mq
    ensures mq.Valid() && Spec.Good(a, SetupOf(mq)) && Simulates(Spec.Next(a, s, SetupOf(mq)), mq.q, mq.v)
  {
    hide Sound, Contents, NoLostWakeup, Carry, PcsMatch;
    StartsGood(mq.q, mq.v, a, SetupOf(mq));
    SameEnabled(s, a.pc, mq.q.pc, mq.v.got);
    ghost var before := mq.q.pc;
    if s.TimesOut? {
      mq.Timeout(s.t);
      PcMoves(a.pc, before, mq.v.got, s.t, Spec.Failed, Failed, mq.v.got);
    } else {
      mq.ReturnError(s.t);
      PcMoves(a.pc, before, mq.v.got, s.t, Spec.Idle, Idle, mq.v.got);
    }
  }

  method ActReset(mq: Queue, s: Spec.Step, ghost a: Spec.State)
    requires mq.Valid() && Simulates(a, mq.q, mq.v) && s.Resets?
    modifies mq
    ensures mq.Valid() && Spec.Good(a, SetupOf(mq)) && Simulates(Spec.Next(a, s, SetupOf(mq)), mq.q, mq.v)
  {
    hide Sound, Contents, NoLostWakeup;
    StartsGood(mq.q, mq.v, a, SetupOf(mq));
    ghost var before := mq.q.pc;
    mq.Reset();
    forall t | t in mq.q.pc
      ensures PcMatches(t, Spec.FailAll(a.pc)[t], mq.q.pc[t], mq.v.got)
    {
      PcAt(a.pc, before, mq.v.got, t);
    }
  }

  /** One step, on both sides. */
  method Act(mq: Queue, s: Spec.Step, ghost a: Spec.State) returns (out: Output)
    requires mq.Valid() && Simulates(a, mq.q, mq.v)
    modifies mq
    ensures mq.Valid() && Spec.Good(a, SetupOf(mq)) && Simulates(Spec.Next(a, s, SetupOf(mq)), mq.q, mq.v)
    ensures Right(out, s, a, SetupOf(mq))
  {
    hide Sound, Contents, NoLostWakeup, Carry, PcsMatch;
    StartsGood(mq.q, mq.v, a, SetupOf(mq));
    SameEnabled(s, a.pc, mq.q.pc, mq.v.got);
    out := NoOutput;
    if !Enabled(s, mq.q.pc) { return; }
    match s
    case SendTakes(_, _, _) => ActTake(mq, s, a);
    case SendCopies(_) => ActCopy(mq, s, a);
    case SendLinks(_) => ActLink(mq, s, a);
    case Receives(_, _) => ActReceive(mq, s, a);
    case Finishes(_, _) => out := ActFinish(mq, s, a);
    case TimesOut(_) => ActLeave(mq, s, a);
    case ReturnsError(_) => ActLeave(mq, s, a);
    case Resets => ActReset(mq, s, a);
  }

  /**
   Any interleaving of any threads' steps takes the queue through the states of the specification, and hands
   receivers what the specification says they hold.

   Without urgent messages and resets, what was taken and what is left is what was there and what was sent.
   */
  method Run(mq: Queue, steps: seq<Spec.Step>) returns (outs: seq<Output>)
    requires mq.Valid()
    modifies mq
    ensures mq.Valid() && Spec.Good(Abstraction(old(mq.q), old(mq.v)), SetupOf(mq))
    ensures Simulates(Spec.Ran(Abstraction(old(mq.q), old(mq.v)), steps, SetupOf(mq)), mq.q, mq.v)
    ensures |outs| == |steps|
    ensures forall i :: 0 <= i < |steps| ==>
              Right(outs[i], steps[i], Spec.Ran(Abstraction(old(mq.q), old(mq.v)), steps[..i], SetupOf(mq)),
                    SetupOf(mq))
    ensures Spec.OrderKept(Abstraction(old(mq.q), old(mq.v)), steps, SetupOf(mq))
    ensures Spec.WakesInTurn(Abstraction(old(mq.q), old(mq.v)), steps, SetupOf(mq))
    ensures |mq.v.freeList| + |mq.v.queue| + |Holders(mq.q.pc)| == mq.maxMsgs
  {
    hide Sound, Contents, NoLostWakeup, Simulates, Abstraction, Right, Spec.Ran, Spec.Next, Spec.OrderKept,
         Spec.WakesInTurn;
    ghost var a, k := Abstraction(mq.q, mq.v), SetupOf(mq);
    AbstractionSimulates(mq.q, mq.v, mq.maxMsgs, mq.msgSize);
    StartsGood(mq.q, mq.v, a, k);
    StartsInOrder(mq.q, mq.v, mq.maxMsgs, mq.msgSize, k);
    outs := [];
    if steps != [] { Spec.RanMore(a, steps, k, 0); } else { Spec.RanNone(a, k); }
    for i := 0 to |steps|
      invariant mq.Valid() && Simulates(Spec.Ran(a, steps[..i], k), mq.q, mq.v) && |outs| == i
      invariant forall j :: 0 <= j < i ==> Right(outs[j], steps[j], Spec.Ran(a, steps[..j], k), k)
    {
      Spec.RanMore(a, steps, k, i);
      var out := Act(mq, steps[i], Spec.Ran(a, steps[..i], k));
      outs := outs + [out];
    }
    assert steps[..|steps|] == steps;
    Spec.OrderIsKept(a, steps, k);
    Spec.AllWokenInTurn(a, steps, k);
    NodesConserved(mq.q, mq.v, mq.maxMsgs, mq.msgSize);
  }

  lemma StartsInOrder(q: Fields, v: View, max: nat, size: nat, k: Spec.Setup)
    requires Sound(q, v, max, size) && Ordered(q.waiters, k.prio, k.flag)
    ensures Spec.WaitsInOrder(Abstraction(q, v), k)
  {
    var a := Abstraction(q, v);
    assert a.waiters == q.waiters && Waiters(q.waiters, q.pc);
    forall t
      ensures t in a.waiters <==> t in a.pc && a.pc[t].Waiting?
    {
      assert t in q.waiters <==> t in q.pc && q.pc[t].Waiting?;
    }
  }

  /** What a step hands out. */
  ghost predicate Right(out: Output, s: Spec.Step, a: Spec.State, k: Spec.Setup) {
    && (out.Output? <==> s.Finishes? && Spec.Enabled(s, a.pc))
    && (out.Output? ==> Agrees(out, a.pc[s.t].message, s.size, k.size))
  }
}
