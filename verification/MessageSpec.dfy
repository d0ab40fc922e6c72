/**
 The message queue as its callers see it: a sequence of messages, a list of waiting threads, and what each
 thread is doing.  There are no nodes and no links here, only how many nodes there are.
 */
module MessageSpec {
  import opened Lists
  import opened WaitList
  import opened WaitOrder
  import opened FifoLog

  type Message = seq<int>

  datatype Pc =
    | Idle
    | Sending(message: Message, urgent: bool)   // has a node for the message
    | Copied(message: Message, urgent: bool)    // has copied the message to it
    | Waiting
    | Woken
    | Failed
    | Holding(message: Message)                 // has taken the message, has not copied it out yet

  datatype State = State(queue: seq<Message>, waiters: seq<Tid>, pc: map<Tid, Pc>)

  /** max_msgs, msg_size, the threads' priorities and the order of the waiting list. */
  datatype Setup = Setup(max: nat, size: nat, prio: Priorities, flag: Flag)

  datatype Step =
    | SendTakes(t: Tid, message: Message, urgent: bool)
    | SendCopies(t: Tid)
    | SendLinks(t: Tid)
    | Receives(t: Tid, wait: bool)
    | Finishes(t: Tid, size: nat)
    | TimesOut(t: Tid)
    | ReturnsError(t: Tid)
    | Resets

  ghost predicate Good(a: State, k: Setup) {
    a.pc.Keys == k.prio.Keys && Known(a.waiters, k.prio)
  }

  /** The thread is where it can take this step next. */
  predicate Enabled(s: Step, pc: map<Tid, Pc>) {
    s.Resets? || (s.t in pc && match s
                               case SendTakes(t, _, _) => pc[t].Idle?
                               case SendCopies(t) => pc[t].Sending?
                               case SendLinks(t) => pc[t].Copied?
                               case Receives(t, _) => pc[t].Idle? || pc[t].Woken?
                               case Finishes(t, _) => pc[t].Holding?
                               case TimesOut(t) => pc[t].Waiting?
                               case ReturnsError(t) => pc[t].Failed?)
  }

  predicate HoldsNode(p: Pc) {
    p.Sending? || p.Copied? || p.Holding?
  }

  ghost function Holders(pc: map<Tid, Pc>): (ts: set<Tid>) {
    set t | t in pc && HoldsNode(pc[t])
  }

  /** What a step does to the messages; a step that is not possible does nothing. */
  ghost function OpOf(a: State, s: Step): (op: Op<Message>)
    ensures Possible(op, a.queue)
  {
    if !Enabled(s, a.pc) then Nothing
    else match s
         case SendLinks(t) => if a.pc[t].urgent then Prepend(a.pc[t].message) else Append(a.pc[t].message)
         case Receives(_, _) => if a.queue != [] then Take(a.queue[0]) else Nothing
         case Resets => Clear
         case _ => Nothing
  }

  ghost function WakeFirst(waiters: seq<Tid>, pc: map<Tid, Pc>): (r: map<Tid, Pc>) {
    if waiters == [] then pc else pc[waiters[0] := Woken]
  }

  ghost function FailAll(pc: map<Tid, Pc>): (r: map<Tid, Pc>)
    ensures r.Keys == pc.Keys
  {
    map t | t in pc :: if pc[t].Waiting? then Failed else pc[t]
  }

  ghost function NextPc(a: State, s: Step, k: Setup): (pc: map<Tid, Pc>)
    requires Enabled(s, a.pc)
  {
    match s
    case SendTakes(t, m, urgent) =>
      if |m| > k.size || |a.queue| + |Holders(a.pc)| >= k.max then a.pc else a.pc[t := Sending(m, urgent)]
    case SendCopies(t) => a.pc[t := Copied(a.pc[t].message, a.pc[t].urgent)]
    case SendLinks(t) => WakeFirst(a.waiters, a.pc[t := Idle])
    case Receives(t, wait) => a.pc[t := if a.queue != [] then Holding(a.queue[0]) else if wait then Waiting else Idle]
    case Finishes(t, _) => a.pc[t := Idle]
    case TimesOut(t) => a.pc[t := Failed]
    case ReturnsError(t) => a.pc[t := Idle]
    case Resets => FailAll(a.pc)
  }

  ghost function NextWaiters(a: State, s: Step, k: Setup): (waiters: seq<Tid>)
    requires Good(a, k) && Enabled(s, a.pc)
  {
    match s
    case SendLinks(_) => if a.waiters == [] then [] else a.waiters[1..]
    case Receives(t, wait) => if a.queue == [] && wait then Suspended(a.waiters, t, k.prio, k.flag) else a.waiters
    case TimesOut(t) => Without(a.waiters, t)
    case Resets => []
    case _ => a.waiters
  }

  /** The state after a step. */
  ghost function Next(a: State, s: Step, k: Setup): (r: State)
    requires Good(a, k)
    ensures Good(r, k)
  {
    if !Enabled(s, a.pc) then a
    else
      assert Known(NextWaiters(a, s, k), k.prio) && NextPc(a, s, k).Keys == k.prio.Keys by { NextGood(a, s, k); }
      State(After(OpOf(a, s), a.queue), NextWaiters(a, s, k), NextPc(a, s, k))
  }

  lemma NextGood(a: State, s: Step, k: Setup)
    requires Good(a, k) && Enabled(s, a.pc)
    ensures Known(NextWaiters(a, s, k), k.prio) && NextPc(a, s, k).Keys == k.prio.Keys
  {
    var w := NextWaiters(a, s, k);
    forall i | 0 <= i < |w|
      ensures w[i] in k.prio
    {
      assert w[i] in w;
      if s.Receives? || s.TimesOut? { assert w[i] in a.waiters || w[i] == s.t; }
    }
  }

  // ----- runs -----

  /** The state after a run of steps. */
  ghost function Ran(a: State, steps: seq<Step>, k: Setup): (r: State)
    requires Good(a, k)
    ensures Good(r, k)
  {
    if steps == [] then a else Next(Ran(a, steps[..|steps| - 1], k), steps[|steps| - 1], k)
  }

  lemma RanNone(a: State, k: Setup)
    requires Good(a, k)
    ensures Ran(a, [], k) == a
  {
  }

  lemma RanMore(a: State, steps: seq<Step>, k: Setup, i: nat)
    requires Good(a, k) && i < |steps|
    ensures Ran(a, steps[..0], k) == a
    ensures Ran(a, steps[..i + 1], k) == Next(Ran(a, steps[..i], k), steps[i], k)
  {
    assert steps[..i + 1][..i] == steps[..i];
  }

  /** What each step of a run did to the messages. */
  ghost function Log(a: State, steps: seq<Step>, k: Setup): (log: seq<Op<Message>>)
    requires Good(a, k)
    ensures |log| == |steps|
  {
    if steps == [] then []
    else
      var most := steps[..|steps| - 1];
      Log(a, most, k) + [OpOf(Ran(a, most, k), steps[|steps| - 1])]
  }

  lemma {:induction false} LogAt(a: State, steps: seq<Step>, k: Setup, i: nat)
    requires Good(a, k) && i < |steps|
    ensures Log(a, steps, k)[i] == OpOf(Ran(a, steps[..i], k), steps[i])
  {
    var most := steps[..|steps| - 1];
    if i < |most| {
      LogAt(a, most, k, i);
      assert most[..i] == steps[..i];
    }
  }

  lemma {:induction false} LogReplays(a: State, steps: seq<Step>, k: Setup)
    requires Good(a, k)
    ensures Replays(Log(a, steps, k), a.queue, Ran(a, steps, k).queue)
  {
    if steps != [] {
      var most := steps[..|steps| - 1];
      LogReplays(a, most, k);
      var mid := Ran(a, most, k);
      ReplaysMore(Log(a, most, k), a.queue, mid.queue, OpOf(mid, steps[|steps| - 1]));
    }
  }

  /** Nobody is about to send an urgent message. */
  ghost predicate NoneUrgent(pc: map<Tid, Pc>) {
    forall t :: t in pc && (pc[t].Sending? || pc[t].Copied?) ==> !pc[t].urgent
  }

  predicate Plain(s: Step) {
    !s.Resets? && !(s.SendTakes? && s.urgent)
  }

  lemma NextNoneUrgent(a: State, s: Step, k: Setup)
    requires Good(a, k) && NoneUrgent(a.pc) && Plain(s)
    ensures NoneUrgent(Next(a, s, k).pc) && !OpOf(a, s).Prepend? && !OpOf(a, s).Clear?
  {
  }

  lemma {:induction false} PlainRuns(a: State, steps: seq<Step>, k: Setup)
    requires Good(a, k) && NoneUrgent(a.pc) && forall i :: 0 <= i < |steps| ==> Plain(steps[i])
    ensures NoneUrgent(Ran(a, steps, k).pc)
    ensures forall i :: 0 <= i < |steps| ==> !Log(a, steps, k)[i].Prepend? && !Log(a, steps, k)[i].Clear?
  {
    if steps != [] {
      var most := steps[..|steps| - 1];
      PlainRuns(a, most, k);
      NextNoneUrgent(Ran(a, most, k), steps[|steps| - 1], k);
    }
  }

  /** In every run without urgent messages and resets, messages come out in the order they went in, each once. */
  lemma InOrder(a: State, steps: seq<Step>, k: Setup)
    requires Good(a, k) && NoneUrgent(a.pc) && forall i :: 0 <= i < |steps| ==> Plain(steps[i])
    ensures Got(Log(a, steps, k)) + Ran(a, steps, k).queue == a.queue + Sent(Log(a, steps, k))
  {
    PlainRuns(a, steps, k);
    LogReplays(a, steps, k);
    FirstInFirstOut(Log(a, steps, k), a.queue, Ran(a, steps, k).queue);
  }

  /** The order law for the runs it holds of. */
  ghost predicate OrderKept(a: State, steps: seq<Step>, k: Setup)
    requires Good(a, k)
  {
    NoneUrgent(a.pc) && (forall i :: 0 <= i < |steps| ==> Plain(steps[i])) ==>
      Got(Log(a, steps, k)) + Ran(a, steps, k).queue == a.queue + Sent(Log(a, steps, k))
  }

  lemma OrderIsKept(a: State, steps: seq<Step>, k: Setup)
    requires Good(a, k)
    ensures OrderKept(a, steps, k)
  {
    if NoneUrgent(a.pc) && (forall i :: 0 <= i < |steps| ==> Plain(steps[i])) { InOrder(a, steps, k); }
  }

  // ----- where messages come from -----

  /** After step `i` of the run the thread has been in one call ever since. */
  ghost predicate InCallSince(a: State, steps: seq<Step>, k: Setup, t: Tid, i: nat)
    requires Good(a, k)
  {
    forall l :: i < l <= |steps| ==> t in Ran(a, steps[..l], k).pc && !Ran(a, steps[..l], k).pc[t].Idle?
  }

  lemma InCallLonger(a: State, steps: seq<Step>, k: Setup, t: Tid, i: nat)
    requires Good(a, k) && steps != [] && t in Ran(a, steps, k).pc && !Ran(a, steps, k).pc[t].Idle?
    requires i < |steps| - 1 ==> InCallSince(a, steps[..|steps| - 1], k, t, i)
    ensures InCallSince(a, steps, k, t, i)
  {
    hide Ran, Good;
    var most := steps[..|steps| - 1];
    forall l | i < l <= |steps|
      ensures t in Ran(a, steps[..l], k).pc && !Ran(a, steps[..l], k).pc[t].Idle?
    {
      if l < |steps| { assert most[..l] == steps[..l]; } else { assert steps[..l] == steps; }
    }
  }

  predicate Sends(p: Pc) {
    p.Sending? || p.Copied?
  }

  /** A step keeps what a sender sends, or it is the call that asks for it. */
  lemma SendsStep(a: State, s: Step, k: Setup, t: Tid)
    requires Good(a, k) && t in a.pc && t in Next(a, s, k).pc && Sends(Next(a, s, k).pc[t])
    ensures var p := Next(a, s, k).pc[t];
            || s == SendTakes(t, p.message, p.urgent)
            || (Sends(a.pc[t]) && a.pc[t].message == p.message && a.pc[t].urgent == p.urgent)
  {
  }

  /** What a thread sends is what it was asked to in the call it is in, or it was sending it from the start. */
  lemma {:induction false} SendsWhatWasAsked(a: State, steps: seq<Step>, k: Setup, t: Tid)
    requires Good(a, k) && t in Ran(a, steps, k).pc && Sends(Ran(a, steps, k).pc[t])
    ensures var p := Ran(a, steps, k).pc[t];
            || (exists i :: 0 <= i < |steps| && steps[i] == SendTakes(t, p.message, p.urgent) &&
                            InCallSince(a, steps, k, t, i))
            || (t in a.pc && Sends(a.pc[t]) && a.pc[t].message == p.message && a.pc[t].urgent == p.urgent)
  {
    if steps != [] {
      hide Next, Good;
      var n := |steps| - 1;
      var most, s := steps[..n], steps[n];
      var mid := Ran(a, most, k);
      KeysKept(a, steps, most, k);
      SendsStep(mid, s, k, t);
      var p := Ran(a, steps, k).pc[t];
      if s == SendTakes(t, p.message, p.urgent) {
        InCallLonger(a, steps, k, t, n);
      } else {
        SendsWhatWasAsked(a, most, k, t);
        if i :| 0 <= i < n && most[i] == SendTakes(t, p.message, p.urgent) && InCallSince(a, most, k, t, i) {
          InCallLonger(a, steps, k, t, i);
          assert steps[i] == most[i];
        }
      }
    }
  }

  lemma KeysKept(a: State, steps: seq<Step>, most: seq<Step>, k: Setup)
    requires Good(a, k)
    ensures Ran(a, steps, k).pc.Keys == Ran(a, most, k).pc.Keys == a.pc.Keys
  {
  }

  /** A step keeps what a receiver holds, or it is the step that takes it. */
  lemma HoldsStep(a: State, s: Step, k: Setup, t: Tid)
    requires Good(a, k) && t in a.pc && t in Next(a, s, k).pc && Next(a, s, k).pc[t].Holding?
    ensures var m := Next(a, s, k).pc[t].message;
            || (s.Receives? && s.t == t && OpOf(a, s) == Take(m))
            || a.pc[t] == Holding(m)
  {
  }

  /** What a thread holds is what it took off the queue in the call it is in, or it held it from the start. */
  lemma {:induction false} HoldsWhatWasTaken(a: State, steps: seq<Step>, k: Setup, t: Tid)
    requires Good(a, k) && t in Ran(a, steps, k).pc && Ran(a, steps, k).pc[t].Holding?
    ensures var m := Ran(a, steps, k).pc[t].message;
            || (exists i :: 0 <= i < |steps| && steps[i].Receives? && steps[i].t == t &&
                            Log(a, steps, k)[i] == Take(m) && InCallSince(a, steps, k, t, i))
            || (t in a.pc && a.pc[t] == Holding(m))
  {
    if steps != [] {
      hide Next, Good, OpOf;
      var n := |steps| - 1;
      var most, s := steps[..n], steps[n];
      KeysKept(a, steps, most, k);
      HoldsStep(Ran(a, most, k), s, k, t);
      var m := Ran(a, steps, k).pc[t].message;
      if s.Receives? && s.t == t && OpOf(Ran(a, most, k), s) == Take(m) {
        InCallLonger(a, steps, k, t, n);
      } else {
        HoldsWhatWasTaken(a, most, k, t);
        if i :| 0 <= i < n && most[i].Receives? && most[i].t == t && Log(a, most, k)[i] == Take(m) &&
                InCallSince(a, most, k, t, i) {
          InCallLonger(a, steps, k, t, i);
          assert steps[i] == most[i] && Log(a, steps, k)[i] == Log(a, most, k)[i];
        }
      }
    }
  }

  /** Every entry of the log comes from the step with its index, and is the only one that step can have. */
  lemma LogEntry(a: State, steps: seq<Step>, k: Setup, j: nat)
    requires Good(a, k) && j < |steps|
    ensures var op, on := Log(a, steps, k)[j], Enabled(steps[j], Ran(a, steps[..j], k).pc);
            && (op.Append? || op.Prepend? <==> on && steps[j].SendLinks?)
            && (op.Take? <==> on && steps[j].Receives? && Ran(a, steps[..j], k).queue != [])
            && (op.Clear? <==> steps[j].Resets?)
  {
    LogAt(a, steps, k, j);
  }

  /** A message that joins the queue is the one its sender was asked to send, urgent or not as asked. */
  lemma JoinedWasAsked(a: State, steps: seq<Step>, k: Setup, j: nat)
    requires Good(a, k) && j < |steps| && (Log(a, steps, k)[j].Append? || Log(a, steps, k)[j].Prepend?)
    ensures steps[j].SendLinks?
    ensures var op, t := Log(a, steps, k)[j], steps[j].t;
            || (exists i :: 0 <= i < j && steps[i] == SendTakes(t, op.m, op.Prepend?) &&
                            InCallSince(a, steps[..j], k, t, i))
            || (t in a.pc && Sends(a.pc[t]) && a.pc[t].message == op.m && a.pc[t].urgent == op.Prepend?)
  {
    LogAt(a, steps, k, j);
    LogEntry(a, steps, k, j);
    var t := steps[j].t;
    SendsWhatWasAsked(a, steps[..j], k, t);
    var p := Ran(a, steps[..j], k).pc[t];
    if i :| 0 <= i < j && steps[..j][i] == SendTakes(t, p.message, p.urgent) && InCallSince(a, steps[..j], k, t, i) {
      assert steps[i] == SendTakes(t, p.message, p.urgent);
    }
  }

  /** What a receiver is handed is what it took off the queue in the same call. */
  lemma HandedWasTaken(a: State, steps: seq<Step>, k: Setup, j: nat)
    requires Good(a, k) && j < |steps| && steps[j].Finishes? && Enabled(steps[j], Ran(a, steps[..j], k).pc)
    ensures var t := steps[j].t;
            var m := Ran(a, steps[..j], k).pc[t].message;
            || (exists i :: 0 <= i < j && steps[i].Receives? && steps[i].t == t && Log(a, steps, k)[i] == Take(m) &&
                            InCallSince(a, steps[..j], k, t, i))
            || (t in a.pc && a.pc[t] == Holding(m))
  {
    var t, before := steps[j].t, steps[..j];
    HoldsWhatWasTaken(a, before, k, t);
    var m := Ran(a, before, k).pc[t].message;
    if i :| 0 <= i < j && before[i].Receives? && before[i].t == t && Log(a, before, k)[i] == Take(m) &&
            InCallSince(a, before, k, t, i) {
      LogAt(a, steps, k, i);
      LogAt(a, before, k, i);
      assert before[..i] == steps[..i] && steps[i] == before[i];
    }
  }

  // ----- who is woken first -----

  /** The list holds those who wait, each once, and in order. */
  ghost predicate WaitsInOrder(a: State, k: Setup) {
    && Distinct(a.waiters) && (forall t :: t in a.waiters <==> t in a.pc && a.pc[t].Waiting?)
    && Ordered(a.waiters, k.prio, k.flag)
  }

  lemma NextInOrder(a: State, s: Step, k: Setup)
    requires Good(a, k) && WaitsInOrder(a, k)
    ensures WaitsInOrder(Next(a, s, k), k) && NobodyOvertakes(a.waiters, Next(a, s, k).waiters, k.prio, k.flag)
  {
    hide Ordered, NobodyOvertakes;
    StaysInPlace(a.waiters, k.prio, k.flag);
    if Enabled(s, a.pc) {
      match s
      case SendLinks(t) =>
        if a.waiters != [] {
          FirstGoes(a.waiters, k.prio, k.flag);
          RestOrdered(a.waiters, k.prio, k.flag);
        }
      case Receives(t, wait) =>
        if a.queue == [] && wait {
          hide Suspended;
          OneJoins(a.waiters, t, k.prio, k.flag);
          SuspendedOrdered(a.waiters, t, k.prio, k.flag);
          SuspendedKeeps(a.waiters, t, k.prio, k.flag);
        }
      case TimesOut(t) =>
        OneGoes(a.waiters, t, k.prio, k.flag);
        WithoutOrdered(a.waiters, t, k.prio, k.flag);
        WithoutKeeps(a.waiters, t);
      case Resets =>
        AllGo(a.waiters, k.prio, k.flag);
        NoneOrdered(k.prio, k.flag);
      case _ =>
    }
  }

  /** The waiting list before each step and after the last. */
  ghost function WaitLists(a: State, steps: seq<Step>, k: Setup): (lists: seq<seq<Tid>>)
    requires Good(a, k)
    ensures |lists| == |steps| + 1
  {
    seq(|steps| + 1, i requires 0 <= i <= |steps| => Ran(a, steps[..i], k).waiters)
  }

  lemma {:induction false} RunInOrder(a: State, steps: seq<Step>, k: Setup, n: nat)
    requires Good(a, k) && WaitsInOrder(a, k) && n <= |steps|
    ensures WaitsInOrder(Ran(a, steps[..n], k), k)
    ensures forall i :: 0 <= i < n ==>
              NobodyOvertakes(WaitLists(a, steps, k)[i], WaitLists(a, steps, k)[i + 1], k.prio, k.flag)
    decreases n
  {
    hide WaitsInOrder, NobodyOvertakes, Next;
    if n > 0 {
      RunInOrder(a, steps, k, n - 1);
      RanMore(a, steps, k, n - 1);
      NextInOrder(Ran(a, steps[..n - 1], k), steps[n - 1], k);
    }
  }

  /** Step `i` wakes the thread. */
  ghost predicate Wakes(a: State, steps: seq<Step>, k: Setup, i: nat, t: Tid)
    requires Good(a, k)
  {
    && i < |steps|
    && t in Ran(a, steps[..i], k).pc && Ran(a, steps[..i], k).pc[t].Waiting?
    && t in Ran(a, steps[..i + 1], k).pc && Ran(a, steps[..i + 1], k).pc[t].Woken?
  }

  /** A thread that is woken is ahead of all that still wait. */
  lemma WokenInTurn(a: State, steps: seq<Step>, k: Setup, i: nat, t: Tid, u: Tid)
    requires Good(a, k) && WaitsInOrder(a, k) && Wakes(a, steps, k, i, t) && u in Ran(a, steps[..i + 1], k).waiters
    ensures Ahead(WaitLists(a, steps, k), i, t, u, k.prio, k.flag)
  {
    hide Next, Ahead, NobodyOvertakes, Ordered, Ran;
    var lists, b := WaitLists(a, steps, k), Ran(a, steps[..i], k);
    RunInOrder(a, steps, k, |steps|);
    RanMore(a, steps, k, i);
    assert lists[0] == a.waiters && lists[i] == b.waiters;
    OneIsWoken(b, steps[i], k, t);
    FirstGoes(b.waiters, k.prio, k.flag);
    FrontIsAhead(lists, i, t, u, k.prio, k.flag);
  }

  ghost predicate WakesInTurn(a: State, steps: seq<Step>, k: Setup)
    requires Good(a, k)
  {
    forall i, t, u :: Wakes(a, steps, k, i, t) && u in WaitLists(a, steps, k)[i + 1] ==>
      Ahead(WaitLists(a, steps, k), i, t, u, k.prio, k.flag)
  }

  lemma AllWokenInTurn(a: State, steps: seq<Step>, k: Setup)
    requires Good(a, k) && WaitsInOrder(a, k)
    ensures WakesInTurn(a, steps, k)
  {
    hide Ahead, WaitsInOrder;
    forall i, t, u | Wakes(a, steps, k, i, t) && u in WaitLists(a, steps, k)[i + 1]
      ensures Ahead(WaitLists(a, steps, k), i, t, u, k.prio, k.flag)
    {
      WokenInTurn(a, steps, k, i, t, u);
    }
  }

  /** A step wakes nobody but the first that waits. */
  lemma OneIsWoken(a: State, s: Step, k: Setup, t: Tid)
    requires Good(a, k) && t in a.pc && a.pc[t].Waiting? && t in Next(a, s, k).pc && Next(a, s, k).pc[t].Woken?
    ensures a.waiters != [] && t == a.waiters[0] && Next(a, s, k).waiters == a.waiters[1..]
  {
  }
}
