/**
 The mailbox: a ring buffer with threads waiting on both sides of it.

 Every section that the code runs with interrupts disabled is one step, and any thread may take the next.
 */
module Mailbox {
  import opened Lists
  import opened WaitList
  import opened WaitOrder
  import opened FifoLog

  datatype Role = Sender | Receiver

  /** Where a thread is in rt_mb_send_wait or rt_mb_recv. */
  datatype Pc =
    | Idle
    | Waiting(role: Role, value: int)   // suspended; a sender still has its mail to send
    | Woken(role: Role, value: int)     // resumed by the other side, has not run yet
    | Failed                            // resumed by a timeout or a reset

  // ----- the ring -----

  /** An offset that has been counted past the end of the buffer at most once. */
  function Wrap(x: int, size: int): (r: int) {
    if x >= size then x - size else x
  }

  ghost predicate RingBounds(pool: seq<int>, inOffset: int, outOffset: int, entry: int) {
    && 0 <= entry <= |pool|
    && (if |pool| == 0 then outOffset == inOffset == 0
        else 0 <= outOffset < |pool| && inOffset == Wrap(outOffset + entry, |pool|))
  }

  /** The mails in the ring, first to last. */
  ghost function Ring(pool: seq<int>, outOffset: int, entry: int): (mails: seq<int>)
    requires 0 <= entry <= |pool| && 0 <= outOffset && (entry > 0 ==> outOffset < |pool|)
  {
    seq(entry, i requires 0 <= i < entry => pool[Wrap(outOffset + i, |pool|)])
  }

  lemma OffsetsAgree(pool: seq<int>, inOffset: int, outOffset: int, entry: int)
    requires RingBounds(pool, inOffset, outOffset, entry) && |pool| > 0
    ensures inOffset == (outOffset + entry) % |pool|
  {
    if outOffset + entry >= |pool| { OnceAround(inOffset, |pool|); } else { NotAround(inOffset, |pool|); }
  }

  lemma OnceAround(m: int, n: int)
    requires 0 <= m < n
    ensures (m + n) % n == m
  {
    Multiple((m + n) / n, n);
  }

  lemma NotAround(m: int, n: int)
    requires 0 <= m < n
    ensures m % n == m
  {
    Multiple(m / n, n);
  }

  lemma Multiple(q: int, n: int)
    requires n > 0
    ensures q <= -1 ==> q * n <= -n
    ensures q >= 1 ==> q * n >= n
    ensures q <= 0 ==> q * n <= 0
    ensures q >= 2 ==> q * n >= 2 * n
  {
  }

  lemma RingPut(pool: seq<int>, inOffset: int, outOffset: int, entry: int, value: int)
    requires RingBounds(pool, inOffset, outOffset, entry) && entry < |pool|
    ensures 0 <= inOffset < |pool|
    ensures RingBounds(pool[inOffset := value], Wrap(inOffset + 1, |pool|), outOffset, entry + 1)
    ensures Ring(pool[inOffset := value], outOffset, entry + 1) == Ring(pool, outOffset, entry) + [value]
  {
    var before, after := Ring(pool, outOffset, entry), Ring(pool[inOffset := value], outOffset, entry + 1);
    forall i | 0 <= i < entry
      ensures after[i] == before[i]
    {
      assert Wrap(outOffset + i, |pool|) != inOffset;
    }
    assert after[entry] == value;
  }

  lemma RingGet(pool: seq<int>, inOffset: int, outOffset: int, entry: int)
    requires RingBounds(pool, inOffset, outOffset, entry) && entry > 0
    ensures 0 <= outOffset < |pool| && pool[outOffset] == Ring(pool, outOffset, entry)[0]
    ensures RingBounds(pool, inOffset, Wrap(outOffset + 1, |pool|), entry - 1)
    ensures Ring(pool, Wrap(outOffset + 1, |pool|), entry - 1) == Ring(pool, outOffset, entry)[1..]
  {
    var before, after := Ring(pool, outOffset, entry), Ring(pool, Wrap(outOffset + 1, |pool|), entry - 1);
    assert before[0] == pool[Wrap(outOffset, |pool|)];
    forall i | 0 <= i < entry - 1
      ensures after[i] == before[i + 1]
    {
      assert Wrap(Wrap(outOffset + 1, |pool|) + i, |pool|) == Wrap(outOffset + (i + 1), |pool|);
    }
    assert before[1..] == after;
  }

  // ----- who is waiting, who has been woken -----

  ghost function WokenSet(pc: map<Tid, Pc>, role: Role): (ts: set<Tid>) {
    set t | t in pc && pc[t].Woken? && pc[t].role == role
  }

  predicate IsWaiting(p: Pc, role: Role) {
    p.Waiting? && p.role == role
  }

  predicate IsWoken(p: Pc, role: Role) {
    p.Woken? && p.role == role
  }

  ghost predicate Waiters(list: seq<Tid>, pc: map<Tid, Pc>, role: Role) {
    Distinct(list) && forall t :: t in list <==> t in pc && IsWaiting(pc[t], role)
  }

  /** While somebody waits for a place or a mail, every one there is has a woken thread on its way to it. */
  ghost predicate NoLostWakeup(list: seq<Tid>, available: int, pc: map<Tid, Pc>, role: Role) {
    list != [] ==> available <= |WokenSet(pc, role)|
  }

  lemma WokenChange(pc: map<Tid, Pc>, t: Tid, p: Pc, role: Role)
    requires t in pc
    ensures |WokenSet(pc[t := p], role)| ==
            |WokenSet(pc, role)| + (if IsWoken(p, role) then 1 else 0) - (if IsWoken(pc[t], role) then 1 else 0)
  {
    var before, after := WokenSet(pc, role), WokenSet(pc[t := p], role);
    assert after == if IsWoken(p, role) then before + {t} else before - {t};
  }

  /** A thread changes state without joining or leaving this list. */
  lemma WaitersStep(list: seq<Tid>, pc: map<Tid, Pc>, t: Tid, p: Pc, role: Role)
    requires Waiters(list, pc, role) && t in pc && !IsWaiting(pc[t], role) && !IsWaiting(p, role)
    ensures Waiters(list, pc[t := p], role)
  {
  }

  lemma WaitersJoin(list: seq<Tid>, pc: map<Tid, Pc>, t: Tid, p: Pc, role: Role, prio: Priorities, flag: Flag)
    requires Waiters(list, pc, role) && Ordered(list, prio, flag) && t in pc && t in prio
    requires !IsWaiting(pc[t], role) && IsWaiting(p, role)
    ensures Waiters(Suspended(list, t, prio, flag), pc[t := p], role)
    ensures Ordered(Suspended(list, t, prio, flag), prio, flag)
  {
    assert t !in list;
    SuspendedKeeps(list, t, prio, flag);
    SuspendedOrdered(list, t, prio, flag);
  }

  lemma WaitersLeave(list: seq<Tid>, pc: map<Tid, Pc>, t: Tid, p: Pc, role: Role, prio: Priorities, flag: Flag)
    requires Waiters(list, pc, role) && Ordered(list, prio, flag) && t in pc && !IsWaiting(p, role)
    ensures Waiters(Without(list, t), pc[t := p], role)
    ensures Ordered(Without(list, t), prio, flag)
  {
    WithoutKeeps(list, t);
    WithoutOrdered(list, t, prio, flag);
  }

  lemma FirstLeaves(list: seq<Tid>, pc: map<Tid, Pc>, p: Pc, role: Role, prio: Priorities, flag: Flag)
    requires Waiters(list, pc, role) && Ordered(list, prio, flag) && list != [] && !IsWaiting(p, role)
    ensures list[0] in pc && IsWaiting(pc[list[0]], role)
    ensures Waiters(list[1..], pc[list[0] := p], role)
    ensures Ordered(list[1..], prio, flag)
  {
    var t := list[0];
    assert t in list;
    assert t in pc && IsWaiting(pc[t], role);
    assert forall x :: x in list[1..] <==> x in list && x != t;
    RestOrdered(list, prio, flag);
  }

  // ----- the state of the waiting threads, as one value -----

  datatype Threads = Threads(receivers: seq<Tid>, senders: seq<Tid>, pc: map<Tid, Pc>)

  ghost predicate SoundThreads(w: Threads, prio: Priorities, flag: Flag) {
    && Waiters(w.receivers, w.pc, Receiver) && Ordered(w.receivers, prio, flag)
    && Waiters(w.senders, w.pc, Sender) && Ordered(w.senders, prio, flag)
    && w.pc.Keys == prio.Keys
  }

  ghost predicate NothingLost(w: Threads, entry: int, size: int) {
    && NoLostWakeup(w.receivers, entry, w.pc, Receiver)
    && NoLostWakeup(w.senders, size - entry, w.pc, Sender)
  }

  /** rt_ipc_list_resume on the waiters of one side, if there are any. */
  function WakeFirst(w: Threads, role: Role): (r: Threads) {
    var list := if role.Receiver? then w.receivers else w.senders;
    if list == [] || list[0] !in w.pc || !w.pc[list[0]].Waiting? then w
    else
      var pc := w.pc[list[0] := Woken(role, w.pc[list[0]].value)];
      if role.Receiver? then Threads(list[1..], w.senders, pc) else Threads(w.receivers, list[1..], pc)
  }

  ghost function List(w: Threads, role: Role): (list: seq<Tid>) {
    if role.Receiver? then w.receivers else w.senders
  }

  ghost function Other(role: Role): (r: Role) {
    if role.Receiver? then Sender else Receiver
  }

  lemma WakeFirstStep(w: Threads, role: Role, prio: Priorities, flag: Flag)
    requires SoundThreads(w, prio, flag)
    ensures SoundThreads(WakeFirst(w, role), prio, flag)
    ensures List(w, role) == [] ==> WakeFirst(w, role) == w
    ensures List(w, role) != [] ==>
              && List(w, role)[0] in w.pc && IsWaiting(w.pc[List(w, role)[0]], role)
              && List(WakeFirst(w, role), role) == List(w, role)[1..]
              && WakeFirst(w, role).pc == w.pc[List(w, role)[0] := Woken(role, w.pc[List(w, role)[0]].value)]
              && |WokenSet(WakeFirst(w, role).pc, role)| == |WokenSet(w.pc, role)| + 1
    ensures List(WakeFirst(w, role), Other(role)) == List(w, Other(role))
    ensures |WokenSet(WakeFirst(w, role).pc, Other(role))| == |WokenSet(w.pc, Other(role))|
  {
    hide Waiters, Ordered, WokenSet;
    var list := List(w, role);
    if list != [] {
      FirstLeaves(list, w.pc, Woken(role, 0), role, prio, flag);
      var t, p := list[0], Woken(role, w.pc[list[0]].value);
      FirstLeaves(list, w.pc, p, role, prio, flag);
      WaitersStep(List(w, Other(role)), w.pc, t, p, Other(role));
      WokenChange(w.pc, t, p, role);
      WokenChange(w.pc, t, p, Other(role));
    }
  }

  /** A thread that is not waiting moves on to a state that is not waiting either. */
  lemma MoveStep(w: Threads, t: Tid, p: Pc, prio: Priorities, flag: Flag)
    requires SoundThreads(w, prio, flag) && t in w.pc && !w.pc[t].Waiting? && !p.Waiting?
    ensures SoundThreads(w.(pc := w.pc[t := p]), prio, flag)
  {
    WaitersStep(w.receivers, w.pc, t, p, Receiver);
    WaitersStep(w.senders, w.pc, t, p, Sender);
  }

  /** Running threads do not change what is promised to the other side. */
  lemma Counts(w: Threads, t: Tid, p: Pc)
    requires t in w.pc && !p.Woken?
    ensures |WokenSet(w.pc[t := p], Receiver)|
            == |WokenSet(w.pc, Receiver)| - (if IsWoken(w.pc[t], Receiver) then 1 else 0)
    ensures |WokenSet(w.pc[t := p], Sender)| == |WokenSet(w.pc, Sender)| - (if IsWoken(w.pc[t], Sender) then 1 else 0)
  {
    WokenChange(w.pc, t, p, Receiver);
    WokenChange(w.pc, t, p, Sender);
  }

  lemma SuspendStep(w: Threads, t: Tid, role: Role, value: int, prio: Priorities, flag: Flag)
    requires SoundThreads(w, prio, flag) && t in w.pc && !w.pc[t].Waiting?
    ensures Known(List(w, role), prio)
    ensures var list, pc := Suspended(List(w, role), t, prio, flag), w.pc[t := Waiting(role, value)];
            SoundThreads(if role.Receiver? then Threads(list, w.senders, pc) else Threads(w.receivers, list, pc),
                         prio, flag)
  {
    hide Waiters;
    var p := Waiting(role, value);
    WaitersJoin(List(w, role), w.pc, t, p, role, prio, flag);
    WaitersStep(List(w, Other(role)), w.pc, t, p, Other(role));
  }

  /** The thread is running in a call of this side of the mailbox. */
  ghost predicate RunsAs(w: Threads, t: Tid, role: Role) {
    t in w.pc && (w.pc[t].Idle? || IsWoken(w.pc[t], role))
  }

  /** A mail has gone in, or a place has become free: the first that waits for it is woken. */
  lemma PassStep(w: Threads, t: Tid, role: Role, entry: int, size: int, prio: Priorities, flag: Flag)
    requires SoundThreads(w, prio, flag) && NothingLost(w, entry, size) && RunsAs(w, t, role)
    requires if role.Sender? then entry < size else entry > 0
    ensures var r := WakeFirst(w.(pc := w.pc[t := Idle]), Other(role));
            && SoundThreads(r, prio, flag)
            && NothingLost(r, if role.Sender? then entry + 1 else entry - 1, size)
  {
    hide SoundThreads, WokenSet;
    Counts(w, t, Idle);
    MoveStep(w, t, Idle, prio, flag);
    WakeFirstStep(w.(pc := w.pc[t := Idle]), Other(role), prio, flag);
    hide WakeFirst;
  }

  /** A thread that finds the mailbox full, or empty, gives up. */
  lemma QuitStep(w: Threads, t: Tid, role: Role, entry: int, size: int, prio: Priorities, flag: Flag)
    requires SoundThreads(w, prio, flag) && NothingLost(w, entry, size) && RunsAs(w, t, role)
    requires 0 <= entry <= size && entry == if role.Sender? then size else 0
    ensures var r := w.(pc := w.pc[t := Idle]); SoundThreads(r, prio, flag) && NothingLost(r, entry, size)
  {
    hide SoundThreads, WokenSet;
    Counts(w, t, Idle);
    MoveStep(w, t, Idle, prio, flag);
  }

  /** Or it waits. */
  lemma WaitStep(w: Threads, t: Tid, role: Role, value: int, entry: int, size: int, prio: Priorities, flag: Flag)
    requires SoundThreads(w, prio, flag) && NothingLost(w, entry, size) && RunsAs(w, t, role)
    requires 0 <= entry <= size && entry == if role.Sender? then size else 0
    ensures Known(List(w, role), prio) && t in prio
    ensures var list, pc := Suspended(List(w, role), t, prio, flag), w.pc[t := Waiting(role, value)];
            var r := if role.Receiver? then Threads(list, w.senders, pc) else Threads(w.receivers, list, pc);
            SoundThreads(r, prio, flag) && NothingLost(r, entry, size)
  {
    hide WokenSet, Waiters, Ordered;
    Counts(w, t, Waiting(role, value));
    SuspendStep(w, t, role, value, prio, flag);
  }

  // ----- the mailbox object -----

  datatype Status = Done | Full | TimedOut | Blocked

  class Mailbox {
    const pool: array<int>
    const flag: Flag
    const prio: Priorities
    var inOffset: int
    var outOffset: int
    var entry: int
    var w: Threads

    ghost predicate Valid()
      reads this, pool
    {
      && RingBounds(pool[..], inOffset, outOffset, entry)
      && SoundThreads(w, prio, flag)
      && NothingLost(w, entry, pool.Length)
    }

    ghost function Contents(): (mails: seq<int>)
      reads this, pool
      requires RingBounds(pool[..], inOffset, outOffset, entry)
      ensures |mails| == entry
    {
      Ring(pool[..], outOffset, entry)
    }

    /** rt_mb_init. */
    constructor (size: nat, flag: Flag, prio: Priorities)
      ensures Valid() && Contents() == [] && fresh(pool) && pool.Length == size
      ensures this.flag == flag && this.prio == prio
      ensures forall t :: t in prio ==> t in w.pc && w.pc[t] == Idle
    {
      pool := new int[size];
      this.flag, this.prio := flag, prio;
      inOffset, outOffset, entry := 0, 0, 0;
      w := Threads([], [], map t | t in prio :: Idle);
    }

    /** rt_mb_send_wait, from the call or from being resumed, until it returns or suspends the thread. */
    method Send(t: Tid, value: int, wait: bool) returns (status: Status)
      requires Valid() && t in w.pc && (w.pc[t].Idle? || w.pc[t] == Woken(Sender, value))
      modifies this, pool
      ensures Valid()
      ensures status == if |old(Contents())| < pool.Length then Done else if wait then Blocked else Full
      ensures Contents() == if status.Done? then old(Contents()) + [value] else old(Contents())
      ensures w == if status.Done? then WakeFirst(old(w).(pc := old(w.pc)[t := Idle]), Receiver)
                   else if status.Full? then old(w).(pc := old(w.pc)[t := Idle])
                   else Threads(old(w.receivers), Suspended(old(w.senders), t, prio, flag),
                                old(w.pc)[t := Waiting(Sender, value)])
    {
      hide SoundThreads, NothingLost, WakeFirst, Ring;
      if entry == pool.Length {
        if !wait {
          QuitStep(w, t, Sender, entry, pool.Length, prio, flag);
          w := w.(pc := w.pc[t := Idle]);
          return Full;
        }
        WaitStep(w, t, Sender, value, entry, pool.Length, prio, flag);
        var list := Suspend(w.senders, t, prio, flag);
        w := Threads(w.receivers, list, w.pc[t := Waiting(Sender, value)]);
        return Blocked;
      }
      RingPut(pool[..], inOffset, outOffset, entry, value);
      PassStep(w, t, Sender, entry, pool.Length, prio, flag);
      ghost var before := pool[..];
      pool[inOffset] := value;
      assert pool[..] == before[inOffset := value];
      inOffset := inOffset + 1;
      if inOffset >= pool.Length { inOffset := 0; }
      entry := entry + 1;
      w := WakeFirst(w.(pc := w.pc[t := Idle]), Receiver);
      return Done;
    }

    /** rt_mb_recv, from the call or from being resumed, until it returns or suspends the thread. */
    method Receive(t: Tid, wait: bool) returns (status: Status, value: int)
      requires Valid() && t in w.pc && (w.pc[t].Idle? || IsWoken(w.pc[t], Receiver))
      modifies this
      ensures Valid()
      ensures status == if old(Contents()) != [] then Done else if wait then Blocked else TimedOut
      ensures if status.Done? then [value] + Contents() == old(Contents()) else Contents() == old(Contents())
      ensures w == if status.Done? then WakeFirst(old(w).(pc := old(w.pc)[t := Idle]), Sender)
                   else if status.TimedOut? then old(w).(pc := old(w.pc)[t := Idle])
                   else Threads(Suspended(old(w.receivers), t, prio, flag), old(w.senders),
                                old(w.pc)[t := Waiting(Receiver, 0)])
    {
      hide SoundThreads, NothingLost, WakeFirst, Ring;
      value := 0;
      if entry == 0 {
        if !wait {
          QuitStep(w, t, Receiver, entry, pool.Length, prio, flag);
          w := w.(pc := w.pc[t := Idle]);
          status := TimedOut;
          return;
        }
        WaitStep(w, t, Receiver, 0, entry, pool.Length, prio, flag);
        var list := Suspend(w.receivers, t, prio, flag);
        w := Threads(list, w.senders, w.pc[t := Waiting(Receiver, 0)]);
        status := Blocked;
        return;
      }
      RingGet(pool[..], inOffset, outOffset, entry);
      PassStep(w, t, Receiver, entry, pool.Length, prio, flag);
      value := pool[outOffset];
      outOffset := outOffset + 1;
      if outOffset >= pool.Length { outOffset := 0; }
      entry := entry - 1;
      w := WakeFirst(w.(pc := w.pc[t := Idle]), Sender);
      status := Done;
    }

    /** rt_thread_timeout on a waiting sender or receiver. */
    method Timeout(t: Tid)
      requires Valid() && t in w.pc && w.pc[t].Waiting?
      modifies this
      ensures Valid() && Contents() == old(Contents())
      ensures w == Threads(Without(old(w.receivers), t), Without(old(w.senders), t), old(w.pc)[t := Failed])
    {
      hide Ordered, WokenSet, Ring;
      WaitersLeave(w.receivers, w.pc, t, Failed, Receiver, prio, flag);
      WaitersLeave(w.senders, w.pc, t, Failed, Sender, prio, flag);
      Counts(w, t, Failed);
      w := Threads(Without(w.receivers, t), Without(w.senders, t), w.pc[t := Failed]);
    }

    /** A thread that was resumed with an error returns it. */
    method ReturnError(t: Tid)
      requires Valid() && t in w.pc && w.pc[t].Failed?
      modifies this
      ensures Valid() && Contents() == old(Contents())
      ensures w == old(w).(pc := old(w.pc)[t := Idle])
    {
      hide Waiters, Ordered, WokenSet, Ring;
      MoveStep(w, t, Idle, prio, flag);
      Counts(w, t, Idle);
      w := w.(pc := w.pc[t := Idle]);
    }

    /** rt_mb_control(RT_IPC_CMD_RESET). */
    method Reset()
      requires Valid()
      modifies this
      ensures Valid() && Contents() == [] && w.receivers == [] && w.senders == [] && w.pc.Keys == old(w.pc.Keys)
      ensures forall t :: t in w.pc ==> w.pc[t] == if old(w.pc[t]).Waiting? then Failed else old(w.pc[t])
    {
      var m := w;
      m := FailAll(m, Receiver);
      m := FailAll(m, Sender);
      NobodyWaits(m, prio, flag);
      w := m;
      entry, inOffset, outOffset := 0, 0, 0;
    }

    /** rt_ipc_list_resume_all. */
    method FailAll(m: Threads, role: Role) returns (r: Threads)
      requires SoundThreads(m, prio, flag)
      ensures SoundThreads(r, prio, flag)
      ensures List(r, role) == [] && List(r, Other(role)) == List(m, Other(role))
      ensures forall t :: t in r.pc ==> r.pc[t] == m.pc[t] || (m.pc[t].Waiting? && r.pc[t] == Failed)
    {
      hide Waiters, Ordered;
      r := m;
      while (if role.Receiver? then r.receivers else r.senders) != []
        invariant SoundThreads(r, prio, flag) && List(r, Other(role)) == List(m, Other(role))
        invariant forall t :: t in r.pc ==> r.pc[t] == m.pc[t] || (m.pc[t].Waiting? && r.pc[t] == Failed)
        decreases |List(r, role)|
      {
        var list := if role.Receiver? then r.receivers else r.senders;
        FirstLeaves(list, r.pc, Failed, role, prio, flag);
        WaitersStep(List(r, Other(role)), r.pc, list[0], Failed, Other(role));
        var pc := r.pc[list[0] := Failed];
        r := if role.Receiver? then Threads(list[1..], r.senders, pc) else Threads(r.receivers, list[1..], pc);
      }
    }
  }

  lemma NobodyWaits(w: Threads, prio: Priorities, flag: Flag)
    requires SoundThreads(w, prio, flag) && w.receivers == [] && w.senders == []
    ensures forall t :: t in w.pc ==> !w.pc[t].Waiting?
  {
    forall t | t in w.pc
      ensures !w.pc[t].Waiting?
    {
      assert t !in w.receivers && t !in w.senders;
      assert !IsWaiting(w.pc[t], Receiver) && !IsWaiting(w.pc[t], Sender);
    }
  }

  // ----- runs -----

  datatype Step =
    | Sends(t: Tid, value: int, wait: bool)
    | Receives(t: Tid, wait: bool)
    | TimesOut(t: Tid)
    | ReturnsError(t: Tid)
    | Resets

  /** The thread is where it can take this step next; a sender that was woken goes on with the same mail. */
  predicate Enabled(s: Step, pc: map<Tid, Pc>) {
    s.Resets? || (s.t in pc && match s
                               case Sends(t, value, _) => pc[t].Idle? || pc[t] == Woken(Sender, value)
                               case Receives(t, _) => pc[t].Idle? || IsWoken(pc[t], Receiver)
                               case TimesOut(t) => pc[t].Waiting?
                               case ReturnsError(t) => pc[t].Failed?)
  }

  // ----- the mailbox as its callers see it -----

  /** The mails and the threads, without the ring. */
  datatype Box = Box(mails: seq<int>, w: Threads)

  datatype Setup = Setup(size: nat, prio: Priorities, flag: Flag)

  ghost predicate Good(b: Box, k: Setup) {
    SoundThreads(b.w, k.prio, k.flag)
  }

  /** What a step does to the mails; a step that is not possible does nothing. */
  ghost function OpOf(b: Box, s: Step, k: Setup): (op: Op<int>)
    ensures Possible(op, b.mails)
  {
    if !Enabled(s, b.w.pc) then Nothing
    else match s
         case Sends(_, value, _) => if |b.mails| < k.size then Append(value) else Nothing
         case Receives(_, _) => if b.mails != [] then Take(b.mails[0]) else Nothing
         case Resets => Clear
         case _ => Nothing
  }

  ghost function FailWaiting(pc: map<Tid, Pc>): (r: map<Tid, Pc>) {
    map t | t in pc :: if pc[t].Waiting? then Failed else pc[t]
  }

  lemma AllFailed(pc: map<Tid, Pc>, pc': map<Tid, Pc>)
    requires pc'.Keys == pc.Keys
    requires forall t :: t in pc' ==> pc'[t] == if pc[t].Waiting? then Failed else pc[t]
    ensures pc' == FailWaiting(pc)
  {
    forall t
      ensures t in pc' <==> t in FailWaiting(pc)
      ensures t in pc' ==> pc'[t] == FailWaiting(pc)[t]
    {
      assert t in pc'.Keys <==> t in pc.Keys;
    }
  }

  ghost function NextThreads(b: Box, s: Step, k: Setup): (w: Threads)
    requires Good(b, k) && Enabled(s, b.w.pc)
  {
    var w := b.w;
    match s
    case Sends(t, value, wait) =>
      if |b.mails| < k.size then WakeFirst(w.(pc := w.pc[t := Idle]), Receiver)
      else if !wait then w.(pc := w.pc[t := Idle])
      else Threads(w.receivers, Suspended(w.senders, t, k.prio, k.flag), w.pc[t := Waiting(Sender, value)])
    case Receives(t, wait) =>
      if b.mails != [] then WakeFirst(w.(pc := w.pc[t := Idle]), Sender)
      else if !wait then w.(pc := w.pc[t := Idle])
      else Threads(Suspended(w.receivers, t, k.prio, k.flag), w.senders, w.pc[t := Waiting(Receiver, 0)])
    case TimesOut(t) => Threads(Without(w.receivers, t), Without(w.senders, t), w.pc[t := Failed])
    case ReturnsError(t) => w.(pc := w.pc[t := Idle])
    case Resets => Threads([], [], FailWaiting(w.pc))
  }

  ghost function Next(b: Box, s: Step, k: Setup): (r: Box)
    requires Good(b, k)
  {
    if !Enabled(s, b.w.pc) then b else Box(After(OpOf(b, s, k), b.mails), NextThreads(b, s, k))
  }

  /** The states a run goes through. */
  ghost predicate Runs(boxes: seq<Box>, steps: seq<Step>, k: Setup) {
    && |boxes| == |steps| + 1
    && forall i :: 0 <= i < |steps| ==> Good(boxes[i], k) && boxes[i + 1] == Next(boxes[i], steps[i], k)
  }

  ghost function Log(boxes: seq<Box>, steps: seq<Step>, k: Setup): (log: seq<Op<int>>)
    requires |boxes| > |steps|
    ensures |log| == |steps|
  {
    if steps == [] then []
    else Log(boxes, steps[..|steps| - 1], k) + [OpOf(boxes[|steps| - 1], steps[|steps| - 1], k)]
  }

  lemma {:induction false} LogReplays(boxes: seq<Box>, steps: seq<Step>, k: Setup)
    requires Runs(boxes, steps, k)
    ensures Replays(Log(boxes, steps, k), boxes[0].mails, boxes[|steps|].mails)
    ensures forall i :: 0 <= i < |steps| ==> Log(boxes, steps, k)[i] == OpOf(boxes[i], steps[i], k)
  {
    if steps != [] {
      var n := |steps| - 1;
      hide Good;
      LogReplays(boxes[..n + 1], steps[..n], k);
      LogSame(boxes, boxes[..n + 1], steps[..n], k);
      ReplaysMore(Log(boxes, steps[..n], k), boxes[0].mails, boxes[n].mails, OpOf(boxes[n], steps[n], k));
    }
  }

  lemma {:induction false} LogSame(boxes: seq<Box>, fewer: seq<Box>, steps: seq<Step>, k: Setup)
    requires |steps| < |fewer| <= |boxes| && fewer == boxes[..|fewer|]
    ensures Log(boxes, steps, k) == Log(fewer, steps, k)
    decreases |steps|
  {
    if steps != [] { LogSame(boxes, fewer, steps[..|steps| - 1], k); }
  }

  /** In every run without resets, mails come out in the order they went in, each once. */
  lemma InOrder(boxes: seq<Box>, steps: seq<Step>, k: Setup)
    requires Runs(boxes, steps, k) && forall i :: 0 <= i < |steps| ==> !steps[i].Resets?
    ensures Got(Log(boxes, steps, k)) + boxes[|steps|].mails == boxes[0].mails + Sent(Log(boxes, steps, k))
  {
    LogReplays(boxes, steps, k);
    forall i | 0 <= i < |steps|
      ensures !Log(boxes, steps, k)[i].Prepend? && !Log(boxes, steps, k)[i].Clear?
    {
      assert Log(boxes, steps, k)[i] == OpOf(boxes[i], steps[i], k);
    }
    FirstInFirstOut(Log(boxes, steps, k), boxes[0].mails, boxes[|steps|].mails);
  }

  // ----- who is woken first -----

  lemma NextInOrder(b: Box, s: Step, k: Setup, role: Role)
    requires Good(b, k)
    ensures NobodyOvertakes(List(b.w, role), List(Next(b, s, k).w, role), k.prio, k.flag)
  {
    hide NobodyOvertakes, WakeFirst, Waiters, Ordered, WokenSet;
    var list, w := List(b.w, role), b.w;
    StaysInPlace(list, k.prio, k.flag);
    if Enabled(s, w.pc) {
      match s
      case Sends(t, value, wait) =>
        SideInOrder(w, t, Sender, value, role, k);
      case Receives(t, wait) =>
        SideInOrder(w, t, Receiver, 0, role, k);
      case TimesOut(t) => OneGoes(list, t, k.prio, k.flag);
      case ReturnsError(t) =>
      case Resets => AllGo(list, k.prio, k.flag);
    }
  }

  /** A call of one side: it wakes the first of the other, or joins its own. */
  lemma SideInOrder(w: Threads, t: Tid, side: Role, value: int, role: Role, k: Setup)
    requires SoundThreads(w, k.prio, k.flag) && RunsAs(w, t, side)
    ensures t in k.prio && Known(List(w, role), k.prio)
    ensures var w' := WakeFirst(w.(pc := w.pc[t := Idle]), Other(side));
            NobodyOvertakes(List(w, role), List(w', role), k.prio, k.flag)
    ensures role == side ==>
              NobodyOvertakes(List(w, role), Suspended(List(w, role), t, k.prio, k.flag), k.prio, k.flag)
  {
    hide NobodyOvertakes, WakeFirst, WokenSet, Suspended;
    var list := List(w, role);
    MoveStep(w, t, Idle, k.prio, k.flag);
    WakeFirstStep(w.(pc := w.pc[t := Idle]), Other(side), k.prio, k.flag);
    StaysInPlace(list, k.prio, k.flag);
    if list != [] { FirstGoes(list, k.prio, k.flag); }
    assert t !in w.receivers && t !in w.senders;
    OneJoins(list, t, k.prio, k.flag);
  }

  ghost function WaitLists(boxes: seq<Box>, role: Role): (lists: seq<seq<Tid>>)
    ensures |lists| == |boxes|
  {
    seq(|boxes|, i requires 0 <= i < |boxes| => List(boxes[i].w, role))
  }

  /** Step `i` wakes the thread. */
  ghost predicate Wakes(boxes: seq<Box>, i: nat, role: Role, t: Tid) {
    && i + 1 < |boxes|
    && t in boxes[i].w.pc && IsWaiting(boxes[i].w.pc[t], role)
    && t in boxes[i + 1].w.pc && boxes[i + 1].w.pc[t].Woken?
  }

  /** A sender or receiver that is woken is ahead of all of its side that still wait. */
  lemma WokenInTurn(boxes: seq<Box>, steps: seq<Step>, k: Setup, i: nat, role: Role, t: Tid, u: Tid)
    requires Runs(boxes, steps, k) && Wakes(boxes, i, role, t) && u in List(boxes[i + 1].w, role)
    ensures Ahead(WaitLists(boxes, role), i, t, u, k.prio, k.flag)
  {
    hide Next, Ahead, NobodyOvertakes, Ordered, Waiters;
    var lists := WaitLists(boxes, role);
    forall j | 0 <= j < |lists| - 1
      ensures NobodyOvertakes(lists[j], lists[j + 1], k.prio, k.flag)
    {
      NextInOrder(boxes[j], steps[j], k, role);
    }
    OneIsWoken(boxes[i], steps[i], k, role, t);
    FirstGoes(lists[i], k.prio, k.flag);
    FrontIsAhead(lists, i, t, u, k.prio, k.flag);
  }

  /** A step wakes nobody but the first that waits, and leaves it the mail it was to send. */
  lemma OneIsWoken(b: Box, s: Step, k: Setup, role: Role, t: Tid)
    requires Good(b, k) && t in b.w.pc && IsWaiting(b.w.pc[t], role)
    requires t in Next(b, s, k).w.pc && Next(b, s, k).w.pc[t].Woken?
    ensures List(b.w, role) != [] && t == List(b.w, role)[0] && List(Next(b, s, k).w, role) == List(b.w, role)[1..]
    ensures Next(b, s, k).w.pc[t] == Woken(role, b.w.pc[t].value)
  {
    hide Ordered, WakeFirst, WokenSet;
    if s.Sends? || s.Receives? {
      var w := b.w.(pc := b.w.pc[s.t := Idle]);
      MoveStep(b.w, s.t, Idle, k.prio, k.flag);
      WakeFirstStep(w, if s.Sends? then Receiver else Sender, k.prio, k.flag);
    }
  }

  ghost predicate WakesInTurn(boxes: seq<Box>, k: Setup) {
    forall i, role, t, u :: Wakes(boxes, i, role, t) && u in WaitLists(boxes, role)[i + 1] ==>
      Ahead(WaitLists(boxes, role), i, t, u, k.prio, k.flag)
  }

  lemma AllWokenInTurn(boxes: seq<Box>, steps: seq<Step>, k: Setup)
    requires Runs(boxes, steps, k)
    ensures WakesInTurn(boxes, k)
  {
    hide Ahead, Runs;
    forall i, role, t, u | Wakes(boxes, i, role, t) && u in WaitLists(boxes, role)[i + 1]
      ensures Ahead(WaitLists(boxes, role), i, t, u, k.prio, k.flag)
    {
      WokenInTurn(boxes, steps, k, i, role, t, u);
    }
  }

  // ----- the ring does the same -----

  ghost function SetupOf(mb: Mailbox): (k: Setup) {
    Setup(mb.pool.Length, mb.prio, mb.flag)
  }

  ghost function BoxOf(mb: Mailbox): (b: Box)
    requires mb.Valid()
    reads mb, mb.pool
  {
    Box(mb.Contents(), mb.w)
  }

  datatype Output = NoOutput | Received(value: int)

  /** What a step hands out: the mail it takes, if it takes one. */
  ghost predicate Right(out: Output, op: Op<int>) {
    out == if op.Take? then Received(op.m) else NoOutput
  }

  method Act(mb: Mailbox, s: Step) returns (out: Output)
    requires mb.Valid()
    modifies mb, mb.pool
    ensures mb.Valid() && Good(old(BoxOf(mb)), SetupOf(mb)) && BoxOf(mb) == Next(old(BoxOf(mb)), s, SetupOf(mb))
    ensures Right(out, OpOf(old(BoxOf(mb)), s, SetupOf(mb)))
  {
    hide SoundThreads, NothingLost, RingBounds, WakeFirst;
    out := NoOutput;
    if !Enabled(s, mb.w.pc) { return; }
    match s
    case Sends(t, value, wait) =>
      var _ := mb.Send(t, value, wait);
    case Receives(t, wait) =>
      var status, value := mb.Receive(t, wait);
      if status.Done? { out := Received(value); }
    case TimesOut(t) =>
      mb.Timeout(t);
    case ReturnsError(t) =>
      mb.ReturnError(t);
    case Resets =>
      ghost var before := mb.w.pc;
      mb.Reset();
      AllFailed(before, mb.w.pc);
  }

  /**
   Any interleaving of any threads' steps takes the ring through the states of the mailbox that its callers
   see, never over its size, and hands receivers the mails that are taken there.
   */
  method Run(mb: Mailbox, steps: seq<Step>) returns (outs: seq<Output>, ghost boxes: seq<Box>)
    requires mb.Valid()
    modifies mb, mb.pool
    ensures mb.Valid() && |mb.Contents()| <= mb.pool.Length
    ensures Runs(boxes, steps, SetupOf(mb)) && boxes[0] == old(BoxOf(mb)) && boxes[|steps|] == BoxOf(mb)
    ensures |outs| == |steps| && forall i :: 0 <= i < |steps| ==> Right(outs[i], OpOf(boxes[i], steps[i], SetupOf(mb)))
    ensures (forall i :: 0 <= i < |steps| ==> !steps[i].Resets?) ==>
              var log := Log(boxes, steps, SetupOf(mb));
              Got(log) + mb.Contents() == old(mb.Contents()) + Sent(log)
    ensures WakesInTurn(boxes, SetupOf(mb))
  {
    hide SoundThreads, NothingLost, RingBounds, OpOf, Next, Good, WakesInTurn;
    ghost var k := SetupOf(mb);
    outs, boxes := [], [BoxOf(mb)];
    for i := 0 to |steps|
      invariant mb.Valid() && |boxes| == i + 1 && |outs| == i && boxes[0] == old(BoxOf(mb)) && boxes[i] == BoxOf(mb)
      invariant forall j :: 0 <= j < i ==> Good(boxes[j], k) && boxes[j + 1] == Next(boxes[j], steps[j], k)
      invariant forall j :: 0 <= j < i ==> Right(outs[j], OpOf(boxes[j], steps[j], k))
    {
      var out := Act(mb, steps[i]);
      outs, boxes := outs + [out], boxes + [BoxOf(mb)];
    }
    if forall i :: 0 <= i < |steps| ==> !steps[i].Resets? { InOrder(boxes, steps, k); }
    AllWokenInTurn(boxes, steps, k);
    EntryInBounds(mb.pool[..], mb.inOffset, mb.outOffset, mb.entry);
  }

  lemma EntryInBounds(pool: seq<int>, inOffset: int, outOffset: int, entry: int)
    requires RingBounds(pool, inOffset, outOffset, entry)
    ensures 0 <= entry <= |pool|
  {
  }

  /** With nobody just woken, waiting receivers mean an empty mailbox and waiting senders a full one. */
  lemma WaitingIsJustified(w: Threads, entry: int, size: int)
    requires NothingLost(w, entry, size) && 0 <= entry <= size
    requires forall t :: t in w.pc ==> !w.pc[t].Woken?
    ensures w.receivers != [] ==> entry == 0
    ensures w.senders != [] ==> entry == size
  {
    assert forall t :: t !in WokenSet(w.pc, Receiver);
    assert forall t :: t !in WokenSet(w.pc, Sender);
  }
}
