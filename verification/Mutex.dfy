/** The recursive mutex with priority inheritance, as steps taken by any threads in any order. */
module Mutex {
  import opened Lists
  import opened WaitList
  import opened WaitOrder

  const NULL: int := -1

  /** original_priority when nobody owns the mutex. */
  const NO_PRIORITY := 0xff

  /** Where a thread is: outside rt_mutex_take, suspended in it, or resumed in it by a timeout. */
  datatype Pc = Idle | Waiting | Failed

  /** struct rt_mutex, and the threads' current priorities and states. */
  datatype Fields = Fields(
    value: int, hold: int, owner: Tid, originalPriority: int,
    waiters: seq<Tid>, prio: Priorities, pc: map<Tid, Pc>)

  /** mutex->hold is an unsigned byte. */
  function Byte(x: int): (b: int) {
    x % 256
  }

  ghost predicate Waiters(waiters: seq<Tid>, pc: map<Tid, Pc>) {
    Distinct(waiters) && forall t :: t in waiters <==> t in pc && pc[t].Waiting?
  }

  /** The owner is at least as urgent as everyone who waits for it. */
  ghost predicate Inherits(m: Fields) {
    m.owner != NULL && m.owner in m.prio ==>
      forall w :: w in m.waiters && w in m.prio ==> m.prio[m.owner] <= m.prio[w]
  }

  /** Owned exactly while held, and nobody waits for a free mutex. */
  ghost predicate Consistent(m: Fields) {
    && (m.value == 0 || m.value == 1) && 0 <= m.hold <= 255
    && (m.value == 1 <==> m.owner == NULL)
    && (m.hold == 0 <==> m.owner == NULL)
    && (m.owner == NULL ==> m.waiters == [] && m.originalPriority == NO_PRIORITY)
    && (m.owner != NULL ==> m.owner in m.pc && !m.pc[m.owner].Waiting?)
  }

  /** Only the owner's priority differs from its own, upwards, and the mutex remembers what it was. */
  ghost predicate Lent(m: Fields, base: Priorities) {
    && m.prio.Keys == base.Keys
    && (forall t :: t in base && t != m.owner ==> m.prio[t] == base[t])
    && (m.owner != NULL && m.owner in base ==>
          m.originalPriority == base[m.owner] && m.prio[m.owner] <= base[m.owner])
  }

  /** `depth` counts each thread's successful takes less its successful releases. */
  ghost predicate Exclusive(m: Fields, depth: map<Tid, int>) {
    && depth.Keys == m.pc.Keys
    && forall t :: t in depth ==> depth[t] == if t == m.owner then m.hold else 0
  }

  ghost predicate Sound(m: Fields, flag: Flag, base: Priorities, depth: map<Tid, int>) {
    && NULL !in m.pc && m.pc.Keys == base.Keys
    && Consistent(m)
    && Waiters(m.waiters, m.pc)
    && Lent(m, base)
    && Ordered(m.waiters, m.prio, flag)
    && (flag.Prio? ==> Inherits(m))
    && Exclusive(m, depth)
  }

  /** Never are two threads between a take and the matching release. */
  lemma MutualExclusion(m: Fields, flag: Flag, base: Priorities, depth: map<Tid, int>, t: Tid, u: Tid)
    requires Sound(m, flag, base, depth) && t in depth && u in depth && depth[t] != 0 && depth[u] != 0
    ensures t == u == m.owner
  {
  }

  // ----- lists and priorities -----

  ghost predicate SameOn(list: seq<Tid>, prio: Priorities, prio': Priorities) {
    forall i :: 0 <= i < |list| ==> list[i] in prio && list[i] in prio' && prio'[list[i]] == prio[list[i]]
  }

  lemma OrderedFrame(list: seq<Tid>, prio: Priorities, prio': Priorities, flag: Flag)
    requires Ordered(list, prio, flag) && SameOn(list, prio, prio')
    ensures Ordered(list, prio', flag)
  {
  }

  lemma FirstLeaves(list: seq<Tid>, pc: map<Tid, Pc>, p: Pc, prio: Priorities, flag: Flag)
    requires Waiters(list, pc) && Ordered(list, prio, flag) && list != [] && !p.Waiting?
    ensures list[0] in pc && pc[list[0]].Waiting? && list[0] in prio
    ensures Waiters(list[1..], pc[list[0] := p])
    ensures Ordered(list[1..], prio, flag)
    ensures forall w :: w in list ==> w in prio
    ensures flag.Prio? ==> forall w :: w in list ==> prio[list[0]] <= prio[w]
    ensures forall w :: w in list[1..] <==> w in list && w != list[0]
  {
    var t := list[0];
    assert t in list;
    assert t in pc && pc[t].Waiting?;
    assert forall x :: x in list[1..] <==> x in list && x != t;
    RestOrdered(list, prio, flag);
  }

  lemma Joins(list: seq<Tid>, pc: map<Tid, Pc>, t: Tid, prio: Priorities, flag: Flag)
    requires Waiters(list, pc) && Ordered(list, prio, flag) && t in pc && t in prio && !pc[t].Waiting?
    ensures Waiters(Suspended(list, t, prio, flag), pc[t := Waiting])
    ensures Ordered(Suspended(list, t, prio, flag), prio, flag)
    ensures t !in list
  {
    assert t !in list;
    SuspendedKeeps(list, t, prio, flag);
    SuspendedOrdered(list, t, prio, flag);
  }

  lemma Leaves(list: seq<Tid>, pc: map<Tid, Pc>, t: Tid, prio: Priorities, flag: Flag)
    requires Waiters(list, pc) && Ordered(list, prio, flag) && t in pc
    ensures Waiters(Without(list, t), pc[t := Failed])
    ensures Ordered(Without(list, t), prio, flag)
  {
    WithoutKeeps(list, t);
    WithoutOrdered(list, t, prio, flag);
  }

  /** Where a thread is placed depends only on the priorities of those it meets. */
  lemma {:induction false} PlaceFrame(list: seq<Tid>, t: Tid, prio: Priorities, prio': Priorities, flag: Flag)
    requires SameOn(list, prio, prio') && t in prio && t in prio' && prio'[t] == prio[t]
    ensures Place(list, t, prio', flag) == Place(list, t, prio, flag)
  {
    if flag.Prio? && list != [] && prio[t] >= prio[list[0]] {
      PlaceFrame(list[1..], t, prio, prio', flag);
    }
  }

  // ----- what each step does to a sound mutex -----

  /** The owner takes the mutex again. */
  lemma NestStep(m: Fields, flag: Flag, base: Priorities, depth: map<Tid, int>)
    requires Sound(m, flag, base, depth) && m.owner != NULL
    ensures m.owner in depth
    ensures Sound(m.(hold := Byte(m.hold + 1)), flag, base, depth[m.owner := depth[m.owner] + 1]) <==> m.hold != 255
  {
    hide Waiters, Ordered, Lent, Inherits;
    var m' := m.(hold := Byte(m.hold + 1));
    assert Inherits(m') == Inherits(m) by { InheritsFrame(m, m'); }
    assert Lent(m', base) by { LentFrame(m, m', base); }
  }

  lemma InheritsFrame(m: Fields, m': Fields)
    requires m'.owner == m.owner && m'.prio == m.prio && m'.waiters == m.waiters
    ensures Inherits(m') == Inherits(m)
  {
  }

  lemma LentFrame(m: Fields, m': Fields, base: Priorities)
    requires Lent(m, base) && m'.owner == m.owner && m'.prio == m.prio && m'.originalPriority == m.originalPriority
    ensures Lent(m', base)
  {
  }

  ghost function Acquired(m: Fields, t: Tid): (r: Fields)
    requires t in m.prio
  {
    m.(value := m.value - 1, owner := t, originalPriority := m.prio[t], hold := Byte(m.hold + 1))
  }

  lemma AcquireStep(m: Fields, flag: Flag, base: Priorities, depth: map<Tid, int>, t: Tid)
    requires Sound(m, flag, base, depth) && m.owner == NULL && t in m.pc && m.pc[t].Idle?
    ensures t in m.prio && t in depth
    ensures Sound(Acquired(m, t), flag, base, depth[t := depth[t] + 1])
  {
    hide Ordered;
  }

  ghost function Lend(m: Fields, t: Tid): (r: Fields)
    requires t in m.prio && m.owner in m.prio
  {
    if m.prio[t] < m.prio[m.owner] then m.(prio := m.prio[m.owner := m.prio[t]]) else m
  }

  lemma LendStep(m: Fields, base: Priorities, t: Tid)
    requires Lent(m, base) && m.owner in base && t in base && t != m.owner && m.owner != NULL
    ensures Lent(Lend(m, t), base)
    ensures Inherits(m) ==> Inherits(Lend(m, t))
    ensures Lend(m, t).prio[m.owner] <= m.prio[t]
  {
  }

  lemma SameOnWaiters(m: Fields, flag: Flag, t: Tid, p: int)
    requires Waiters(m.waiters, m.pc) && Ordered(m.waiters, m.prio, flag) && t in m.pc && !m.pc[t].Waiting?
    ensures SameOn(m.waiters, m.prio, m.prio[t := p])
  {
    assert forall i :: 0 <= i < |m.waiters| ==> m.waiters[i] in m.waiters;
  }

  lemma BlockStep(m: Fields, flag: Flag, base: Priorities, depth: map<Tid, int>, t: Tid)
    requires Sound(m, flag, base, depth) && m.owner != NULL && m.owner != t && t in m.pc && m.pc[t].Idle?
    ensures t in m.prio && m.owner in m.prio
    ensures var m1 := Lend(m, t);
            && Known(m.waiters, m.prio) && Known(m.waiters, m1.prio)
            && Suspended(m.waiters, t, m1.prio, flag) == Suspended(m.waiters, t, m.prio, flag)
            && var m2 := m1.(waiters := Suspended(m.waiters, t, m.prio, flag), pc := m.pc[t := Waiting]);
            Sound(m2, flag, base, depth) && (Inherits(m) ==> Inherits(m2))
  {
    hide Waiters, MostUrgentFirst, Inherits, Suspended;
    SameOnWaiters(m, flag, m.owner, m.prio[t]);
    var m1 := Lend(m, t);
    LendStep(m, base, t);
    assert SameOn(m.waiters, m.prio, m1.prio);
    OrderedFrame(m.waiters, m.prio, m1.prio, flag);
    SuspendedFrame(m.waiters, t, m.prio, m1.prio, flag);
    Joins(m.waiters, m.pc, t, m1.prio, flag);
    var list := Suspended(m.waiters, t, m1.prio, flag);
    var m2 := m1.(waiters := list, pc := m.pc[t := Waiting]);
    InheritsJoin(m1, t, list, m2);
    LentFrame(m1, m2, base);
  }

  lemma InheritsJoin(m: Fields, t: Tid, list: seq<Tid>, m': Fields)
    requires m.owner in m.prio && t in m.prio && m.prio[m.owner] <= m.prio[t]
    requires forall x :: x in list <==> x in m.waiters || x == t
    requires m'.owner == m.owner && m'.prio == m.prio && m'.waiters == list
    ensures Inherits(m) ==> Inherits(m')
  {
  }

  lemma SuspendedFrame(list: seq<Tid>, t: Tid, prio: Priorities, prio': Priorities, flag: Flag)
    requires SameOn(list, prio, prio') && t in prio && t in prio' && prio'[t] == prio[t]
    ensures Known(list, prio) && Known(list, prio')
    ensures Suspended(list, t, prio', flag) == Suspended(list, t, prio, flag)
  {
    PlaceFrame(list, t, prio, prio', flag);
  }

  /** The owner gives back one of several takes. */
  lemma UnnestStep(m: Fields, flag: Flag, base: Priorities, depth: map<Tid, int>)
    requires Sound(m, flag, base, depth) && m.hold > 1
    ensures m.owner in depth && Byte(m.hold - 1) == m.hold - 1
    ensures Sound(m.(hold := m.hold - 1), flag, base, depth[m.owner := depth[m.owner] - 1])
  {
    hide Waiters, Ordered, Lent, Inherits;
    var m' := m.(hold := m.hold - 1);
    InheritsFrame(m, m');
    LentFrame(m, m', base);
  }

  /** The last release returns what was lent. */
  ghost function Repaid(m: Fields): (r: Fields) {
    m.(hold := 0, prio := m.prio[m.owner := m.originalPriority])
  }

  lemma FreeStep(m: Fields, flag: Flag, base: Priorities, depth: map<Tid, int>)
    requires Sound(m, flag, base, depth) && m.hold == 1 && m.waiters == []
    ensures m.owner in base && m.owner in depth && m.originalPriority == base[m.owner]
    ensures Sound(Repaid(m).(value := m.value + 1, owner := NULL, originalPriority := NO_PRIORITY),
                  flag, base, depth[m.owner := 0])
  {
  }

  ghost function HandedOver(m: Fields): (r: Fields)
    requires m.waiters != [] && m.waiters[0] in m.prio
  {
    m.(owner := m.waiters[0], originalPriority := m.prio[m.waiters[0]], hold := 1,
       waiters := m.waiters[1..], pc := m.pc[m.waiters[0] := Idle])
  }

  lemma HandoverStep(m: Fields, flag: Flag, base: Priorities, depth: map<Tid, int>)
    requires Sound(m, flag, base, depth) && m.hold == 1 && m.waiters != []
    ensures m.owner in base && m.owner in depth && m.originalPriority == base[m.owner]
    ensures var t := m.waiters[0];
            && t in Repaid(m).prio && t in m.pc && t != m.owner
            && Sound(HandedOver(Repaid(m)), flag, base, depth[m.owner := 0][t := 1])
            && (forall w :: w in m.waiters ==> w in base)
            && (Inherits(HandedOver(Repaid(m))) <==> forall w :: w in m.waiters ==> base[t] <= base[w])
  {
    hide Waiters, Ordered;
    SameOnWaiters(m, flag, m.owner, m.originalPriority);
    var r := Repaid(m);
    OrderedFrame(m.waiters, m.prio, r.prio, flag);
    FirstLeaves(m.waiters, m.pc, Idle, r.prio, flag);
  }

  lemma OwnerKnown(m: Fields, flag: Flag, base: Priorities, depth: map<Tid, int>)
    requires Sound(m, flag, base, depth)
    ensures m.pc.Keys == m.prio.Keys == base.Keys == depth.Keys && NULL !in m.pc && Known(m.waiters, m.prio)
    ensures m.owner != NULL ==> m.owner in m.pc && m.hold >= 1 && m.value == 0
    ensures m.owner == NULL ==> m.value == 1 && m.waiters == []
    ensures forall t :: t in depth ==> depth[t] == if t == m.owner then m.hold else 0
  {
  }

  lemma NobodyToInherit(m: Fields)
    requires m.waiters == []
    ensures Inherits(m)
  {
  }

  // ----- the mutex object -----

  datatype Status = Done | NotOwner | TimedOut | Blocked

  class Mutex {
    const flag: Flag
    ghost const base: Priorities
    var m: Fields
    ghost var depth: map<Tid, int>

    ghost predicate Valid()
      reads this
    {
      Sound(m, flag, base, depth)
    }

    /** rt_mutex_init. */
    constructor (flag: Flag, prio: Priorities)
      requires NULL !in prio
      ensures Valid() && m.owner == NULL && m.prio == prio && base == prio && this.flag == flag
      ensures m.hold == 0 && m.waiters == []
      ensures m.pc.Keys == prio.Keys && forall t :: t in prio ==> m.pc[t] == Idle
    {
      this.flag, base := flag, prio;
      m := Fields(1, 0, NULL, NO_PRIORITY, [], prio, map t | t in prio :: Idle);
      depth := map t | t in prio :: 0;
    }

    /**
     rt_mutex_take, until it returns or suspends the thread.

     The invariant survives unless the owner takes the mutex a 256th time: then `hold` is back at 0
     while the mutex is owned.
     */
    method Take(t: Tid, wait: bool) returns (status: Status)
      requires Valid() && t in m.pc && m.pc[t].Idle?
      modifies this
      ensures Valid() <==> !(old(m.owner) == t && old(m.hold) == 255)
      ensures status == if old(m.owner) == t || old(m.owner) == NULL then Done else if wait then Blocked else TimedOut
      ensures depth == if status.Done? then old(depth)[t := old(depth)[t] + 1] else old(depth)
      ensures status.Done? ==> m.owner == t && m.waiters == old(m.waiters) && m.pc == old(m.pc) && m.prio == old(m.prio)
      ensures status.Done? ==> m.hold == Byte(old(m.hold) + 1)
      ensures status.TimedOut? ==> m == old(m)
      ensures status.Blocked? ==>
                && m.owner == old(m.owner) && m.pc == old(m.pc)[t := Waiting] && m.hold == old(m.hold)
                && m.waiters == Suspended(old(m.waiters), t, old(m.prio), flag)
                && m.prio == if old(m.prio[t]) < old(m.prio[m.owner]) then old(m.prio)[m.owner := old(m.prio[t])]
                             else old(m.prio)
      ensures old(Inherits(m)) ==> Inherits(m)
    {
      hide Sound, Inherits;
      OwnerKnown(m, flag, base, depth);
      var m' := m;
      if m'.owner == t {
        NestStep(m, flag, base, depth);
        InheritsFrame(m, m.(hold := Byte(m.hold + 1)));
        m' := m'.(hold := Byte(m'.hold + 1));
        depth := depth[t := depth[t] + 1];
        m := m';
        return Done;
      }
      if m'.value > 0 {
        AcquireStep(m, flag, base, depth, t);
        NobodyToInherit(Acquired(m, t));
        m' := m'.(value := m'.value - 1, owner := t, originalPriority := m'.prio[t], hold := Byte(m'.hold + 1));
        depth := depth[t := depth[t] + 1];
        m := m';
        return Done;
      }
      if !wait { return TimedOut; }
      BlockStep(m, flag, base, depth, t);
      if m'.prio[t] < m'.prio[m'.owner] {
        m' := m'.(prio := m'.prio[m'.owner := m'.prio[t]]);
      }
      var list := Suspend(m'.waiters, t, m'.prio, flag);
      m' := m'.(waiters := list, pc := m'.pc[t := Waiting]);
      m := m';
      return Blocked;
    }

    /**
     rt_mutex_release.

     The last release gives the owner its own priority back and hands the mutex to the first waiter.
     The new owner is then as urgent as the others exactly if it was before: nothing is inherited here.
     */
    method Release(t: Tid) returns (status: Status)
      requires Valid() && t in m.pc && m.pc[t].Idle?
      modifies this
      ensures Valid()
      ensures status == if old(m.owner) == t then Done else NotOwner
      ensures status.NotOwner? ==> m == old(m) && depth == old(depth)
      ensures status.Done? && old(m.hold) > 1 ==>
                m == old(m).(hold := old(m.hold) - 1) && depth == old(depth)[t := old(depth)[t] - 1]
      ensures status.Done? && old(m.hold) == 1 ==> m.prio == old(m.prio)[t := base[t]] && depth[t] == 0
      ensures status.Done? && old(m.hold) == 1 && old(m.waiters) == [] ==>
                && m.owner == NULL && m.hold == 0 && m.waiters == [] && m.pc == old(m.pc)
                && depth == old(depth)[t := 0]
      ensures status.Done? && old(m.hold) == 1 && old(m.waiters) != [] ==>
                && m.owner == old(m.waiters)[0] && m.waiters == old(m.waiters)[1..]
                && m.pc == old(m.pc)[m.owner := Idle]
                && m.hold == 1 && depth == old(depth)[t := 0][m.owner := 1]
                && (Inherits(m) <==> forall w :: w in old(m.waiters) ==> base[m.owner] <= base[w])
    {
      hide Sound, Inherits;
      OwnerKnown(m, flag, base, depth);
      var m' := m;
      if t != m'.owner { return NotOwner; }
      if m.hold > 1 {
        UnnestStep(m, flag, base, depth);
      } else if m.waiters == [] {
        FreeStep(m, flag, base, depth);
      } else {
        HandoverStep(m, flag, base, depth);
      }
      m' := m'.(hold := Byte(m'.hold - 1));
      depth := depth[t := depth[t] - 1];
      if m'.hold == 0 {
        assert m'.prio[t := m'.prio[t]] == m'.prio;
        if m'.originalPriority != m'.prio[m'.owner] {
          m' := m'.(prio := m'.prio[m'.owner := m'.originalPriority]);
        }
        assert m' == Repaid(m);
        if m'.waiters != [] {
          var thread := m'.waiters[0];
          m' := m'.(owner := thread, originalPriority := m'.prio[thread], hold := Byte(m'.hold + 1));
          depth := depth[thread := depth[thread] + 1];
          m' := m'.(waiters := m'.waiters[1..], pc := m'.pc[thread := Idle]);
        } else {
          m' := m'.(value := m'.value + 1, owner := NULL, originalPriority := NO_PRIORITY);
        }
      }
      m := m';
      return Done;
    }

    /** rt_thread_timeout on a waiter: the owner keeps what it was lent. */
    method Timeout(t: Tid)
      requires Valid() && t in m.pc && m.pc[t].Waiting?
      modifies this
      ensures Valid() && depth == old(depth)
      ensures m == old(m).(waiters := Without(old(m.waiters), t), pc := old(m.pc)[t := Failed])
    {
      Leaves(m.waiters, m.pc, t, m.prio, flag);
      m := m.(waiters := Without(m.waiters, t), pc := m.pc[t := Failed]);
    }

    /** A thread whose wait timed out returns. */
    method ReturnError(t: Tid)
      requires Valid() && t in m.pc && m.pc[t].Failed?
      modifies this
      ensures Valid() && depth == old(depth)
      ensures m == old(m).(pc := old(m.pc)[t := Idle])
    {
      m := m.(pc := m.pc[t := Idle]);
    }
  }

  // ----- runs -----

  datatype Step = Takes(t: Tid, wait: bool) | Releases(t: Tid) | TimesOut(t: Tid) | ReturnsError(t: Tid)

  /** The thread can take this step next; owners nest at most 255 takes. */
  predicate Enabled(s: Step, m: Fields) {
    s.t in m.pc && match s
                   case Takes(t, _) => m.pc[t].Idle? && !(m.owner == t && m.hold == 255)
                   case Releases(t) => m.pc[t].Idle?
                   case TimesOut(t) => m.pc[t].Waiting?
                   case ReturnsError(t) => m.pc[t].Failed?
  }

  /** A mutex, and how often each thread has taken it and not released it. */
  datatype Picture = Picture(m: Fields, depth: map<Tid, int>)

  ghost function PictureOf(mutex: Mutex): (p: Picture)
    reads mutex
  {
    Picture(mutex.m, mutex.depth)
  }

  /** The threads, whoever waits, and who owns the mutex how often. */
  ghost predicate Shows(p: Picture, owner: Tid, hold: int, waiters: seq<Tid>, prio: Priorities, pc: map<Tid, Pc>,
                        depth: map<Tid, int>) {
    && p.m.owner == owner && p.m.hold == hold && p.m.waiters == waiters && p.m.prio == prio && p.m.pc == pc
    && p.depth == depth
  }

  /** What each step does; one that is not possible does nothing. */
  ghost predicate Did(s: Step, p: Picture, p': Picture, base: Priorities, flag: Flag) {
    var m, t := p.m, s.t;
    if !Enabled(s, m) then p' == p
    else
      && t in m.prio && t in p.depth && t in base
      && match s
         case Takes(_, wait) =>
           if m.owner == t || m.owner == NULL then
             Shows(p', t, m.hold + 1, m.waiters, m.prio, m.pc, p.depth[t := p.depth[t] + 1])
           else if wait then
             && m.owner in m.prio && Known(m.waiters, m.prio)
             && Shows(p', m.owner, m.hold, Suspended(m.waiters, t, m.prio, flag),
                      if m.prio[t] < m.prio[m.owner] then m.prio[m.owner := m.prio[t]] else m.prio,
                      m.pc[t := Waiting], p.depth)
           else p' == p
         case Releases(_) =>
           if m.owner != t then p' == p
           else if m.hold > 1 then
             p' == Picture(m.(hold := m.hold - 1), p.depth[t := p.depth[t] - 1])
           else if m.waiters == [] then Shows(p', NULL, 0, [], m.prio[t := base[t]], m.pc, p.depth[t := 0])
           else
             var next := m.waiters[0];
             Shows(p', next, 1, m.waiters[1..], m.prio[t := base[t]], m.pc[next := Idle], p.depth[t := 0][next := 1])
         case TimesOut(_) => p' == p.(m := m.(waiters := Without(m.waiters, t), pc := m.pc[t := Failed]))
         case ReturnsError(_) => p' == p.(m := m.(pc := m.pc[t := Idle]))
  }

  lemma StepFacts(m: Fields, flag: Flag, base: Priorities, depth: map<Tid, int>, t: Tid)
    requires Sound(m, flag, base, depth) && t in m.pc
    ensures t in m.prio && t in depth && t in base && (m.owner != NULL ==> m.owner in m.prio)
    ensures m.owner == NULL ==> m.hold == 0
    ensures 0 <= m.hold < 256 && (m.owner == t ==> m.hold > 0 && depth[t] == m.hold) && Known(m.waiters, m.prio)
  {
  }

  method Act(mutex: Mutex, s: Step)
    requires mutex.Valid()
    modifies mutex
    ensures mutex.Valid() && Did(s, old(PictureOf(mutex)), PictureOf(mutex), mutex.base, mutex.flag)
  {
    hide Sound, Inherits;
    if Enabled(s, mutex.m) {
      StepFacts(mutex.m, mutex.flag, mutex.base, mutex.depth, s.t);
      match s
      case Takes(t, wait) => var _ := mutex.Take(t, wait);
      case Releases(t) => var _ := mutex.Release(t);
      case TimesOut(t) => mutex.Timeout(t);
      case ReturnsError(t) => mutex.ReturnError(t);
    }
  }

  // ----- who gets the mutex first -----

  /** Waiting threads have their own priority. */
  lemma WaitersOwnPriority(m: Fields, flag: Flag, base: Priorities, depth: map<Tid, int>, t: Tid)
    requires Sound(m, flag, base, depth) && t in m.pc && t != m.owner
    ensures Rank(t, m.prio, flag) == Rank(t, base, flag)
    ensures t in m.waiters <==> m.pc[t].Waiting?
  {
  }

  lemma StepInOrder(s: Step, p: Picture, p': Picture, base: Priorities, flag: Flag)
    requires Sound(p.m, flag, base, p.depth) && Did(s, p, p', base, flag)
    ensures NobodyOvertakes(p.m.waiters, p'.m.waiters, base, flag)
  {
    hide NobodyOvertakes, Rank, Suspended;
    var m, t, list := p.m, s.t, p.m.waiters;
    StaysInPlace(list, base, flag);
    if Enabled(s, m) {
      match s
      case Takes(_, wait) =>
        if m.owner != t && m.owner != NULL && wait {
          WaitersOwnPriority(m, flag, base, p.depth, t);
          OneJoins(list, t, m.prio, flag);
          forall u | u in Suspended(list, t, m.prio, flag)
            ensures Rank(u, base, flag) == Rank(u, m.prio, flag)
          {
            if u != t { WaiterIsNotOwner(m, flag, base, p.depth, u); }
            WaitersOwnPriority(m, flag, base, p.depth, u);
          }
          SameRanks(list, Suspended(list, t, m.prio, flag), m.prio, base, flag);
        }
      case Releases(_) =>
        if list != [] { FirstGoes(list, base, flag); }
      case TimesOut(_) => OneGoes(list, t, base, flag);
      case ReturnsError(_) =>
    }
  }

  lemma WaiterIsNotOwner(m: Fields, flag: Flag, base: Priorities, depth: map<Tid, int>, t: Tid)
    requires Sound(m, flag, base, depth) && t in m.waiters
    ensures t in m.pc && t != m.owner
  {
  }

  ghost function WaitLists(pictures: seq<Picture>): (lists: seq<seq<Tid>>)
    ensures |lists| == |pictures|
  {
    seq(|pictures|, i requires 0 <= i < |pictures| => pictures[i].m.waiters)
  }

  /** Step `i` hands the mutex over to a thread that waits for it. */
  ghost predicate HandsOver(pictures: seq<Picture>, i: nat, t: Tid) {
    i + 1 < |pictures| && t in pictures[i].m.waiters && pictures[i + 1].m.owner == t
  }

  ghost predicate HandsOverInTurn(pictures: seq<Picture>, base: Priorities, flag: Flag) {
    forall i, t, u :: HandsOver(pictures, i, t) && u in WaitLists(pictures)[i + 1] ==>
      Ahead(WaitLists(pictures), i, t, u, base, flag)
  }

  /** The thread that gets the mutex is ahead of all that still wait. */
  lemma AllInTurn(pictures: seq<Picture>, steps: seq<Step>, base: Priorities, flag: Flag)
    requires |pictures| == |steps| + 1 && forall p :: p in pictures ==> Sound(p.m, flag, base, p.depth)
    requires forall i :: 0 <= i < |steps| ==> Did(steps[i], pictures[i], pictures[i + 1], base, flag)
    ensures HandsOverInTurn(pictures, base, flag)
  {
    hide Ahead, NobodyOvertakes, Did, Sound, Ordered;
    var lists := WaitLists(pictures);
    forall j | 0 <= j < |lists| - 1
      ensures NobodyOvertakes(lists[j], lists[j + 1], base, flag)
    {
      assert pictures[j] in pictures;
      StepInOrder(steps[j], pictures[j], pictures[j + 1], base, flag);
    }
    assert pictures[0] in pictures;
    StartOrdered(pictures[0].m, flag, base, pictures[0].depth);
    forall i: nat, t, u | HandsOver(pictures, i, t) && u in lists[i + 1]
      ensures Ahead(lists, i, t, u, base, flag)
    {
      assert pictures[i] in pictures;
      FirstGetsIt(steps[i], pictures[i], pictures[i + 1], base, flag, t);
      FirstGoes(lists[i], base, flag);
      FrontIsAhead(lists, i, t, u, base, flag);
    }
  }

  lemma StartOrdered(m: Fields, flag: Flag, base: Priorities, depth: map<Tid, int>)
    requires Sound(m, flag, base, depth)
    ensures Ordered(m.waiters, base, flag)
  {
    forall i | 0 <= i < |m.waiters|
      ensures m.waiters[i] in base && m.prio[m.waiters[i]] == base[m.waiters[i]]
    {
      WaiterIsNotOwner(m, flag, base, depth, m.waiters[i]);
    }
  }

  lemma FirstGetsIt(s: Step, p: Picture, p': Picture, base: Priorities, flag: Flag, t: Tid)
    requires Sound(p.m, flag, base, p.depth) && Did(s, p, p', base, flag) && t in p.m.waiters && p'.m.owner == t
    ensures t == p.m.waiters[0] && p'.m.waiters == p.m.waiters[1..]
  {
    WaiterIsNotOwner(p.m, flag, base, p.depth, t);
    WaitersOwnPriority(p.m, flag, base, p.depth, t);
  }

  /**
   Every run follows the steps and keeps the invariant; a thread that does not own the mutex has its own
   priority, and the mutex goes to whoever is ahead of all that still wait.
   */
  method Run(mutex: Mutex, steps: seq<Step>) returns (ghost pictures: seq<Picture>)
    requires mutex.Valid()
    modifies mutex
    ensures mutex.Valid()
    ensures |pictures| == |steps| + 1 && pictures[0] == old(PictureOf(mutex)) && pictures[|steps|] == PictureOf(mutex)
    ensures forall i :: 0 <= i < |steps| ==> Did(steps[i], pictures[i], pictures[i + 1], mutex.base, mutex.flag)
    ensures forall t :: t in mutex.base && t != mutex.m.owner ==> t in mutex.m.prio && mutex.m.prio[t] == mutex.base[t]
    ensures mutex.flag.Prio? ==> Inherits(mutex.m)
    ensures mutex.m.waiters != [] ==> mutex.m.owner != NULL
    ensures HandsOverInTurn(pictures, mutex.base, mutex.flag)
  {
    hide Did, HandsOverInTurn;
    pictures := [PictureOf(mutex)];
    for i := 0 to |steps|
      invariant mutex.Valid() && |pictures| == i + 1
      invariant pictures[0] == old(PictureOf(mutex)) && pictures[i] == PictureOf(mutex)
      invariant forall k :: 0 <= k < i ==> Did(steps[k], pictures[k], pictures[k + 1], mutex.base, mutex.flag)
      invariant forall p :: p in pictures ==> Sound(p.m, mutex.flag, mutex.base, p.depth)
    {
      Act(mutex, steps[i]);
      pictures := pictures + [PictureOf(mutex)];
    }
    AllInTurn(pictures, steps, mutex.base, mutex.flag);
  }

  /** In arrival order, a handover leaves an urgent waiter behind a less urgent owner. */
  method HandoverInverts() returns (mutex: Mutex)
    ensures fresh(mutex) && mutex.Valid() && mutex.flag == Fifo
    ensures mutex.m.owner == 1 && mutex.m.waiters == [2] && !Inherits(mutex.m)
  {
    hide Sound, Inherits;
    var prio := map[0 := 10, 1 := 20, 2 := 5];
    mutex := new Mutex(Fifo, prio);
    var _ := mutex.Take(0, true);
    var _ := mutex.Take(1, true);
    assert mutex.m.waiters == [1];
    var _ := mutex.Take(2, true);
    assert mutex.m.waiters == [1, 2];
    var _ := mutex.Release(0);
  }

  /** The 256th take in a row leaves a mutex that is owned and not held. */
  method HoldOverflows() returns (mutex: Mutex)
    ensures fresh(mutex) && !mutex.Valid() && mutex.m.owner == 0 && mutex.m.hold == 0
  {
    hide Sound;
    mutex := new Mutex(Prio, map[0 := 10]);
    for k := 0 to 255
      invariant fresh(mutex) && mutex.Valid() && mutex.m.hold == k && 0 in mutex.m.pc && mutex.m.pc[0] == Idle
      invariant mutex.m.owner == if k == 0 then NULL else 0
    {
      var _ := mutex.Take(0, true);
    }
    var _ := mutex.Take(0, true);
  }
}
