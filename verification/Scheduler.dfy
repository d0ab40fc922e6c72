/** The ready queues of the scheduler, their index, and the states of the threads (one processor). */
module Scheduler {
  import opened Lists
  import opened WaitList
  import opened ReadyIndex
  import Words

  const NULL: int := -1

  datatype Stat = Init | Ready | Running | Suspend | Close

  /** rt_thread_priority_table with its bitmaps, rt_current_thread, and every thread's state and priority. */
  datatype Fields = Fields(
    queues: seq<seq<Tid>>, index: Index, current: Tid,
    stat: map<Tid, Stat>, prio: Priorities)

  // ----- queues, index and states agree -----

  ghost predicate Indexed(queues: seq<seq<Tid>>, index: Index) {
    && Good(index) && |queues| <= Limit(index)
    && forall p :: 0 <= p < Limit(index) ==> (Has(index, p) <==> p < |queues| && queues[p] != [])
  }

  /** A thread is ready exactly if it is on a queue, and then once on that of its own priority. */
  ghost predicate Queued(queues: seq<seq<Tid>>, stat: map<Tid, Stat>, prio: Priorities) {
    && stat.Keys == prio.Keys
    && (forall t :: t in prio ==> 0 <= prio[t] < |queues|)
    && (forall p :: 0 <= p < |queues| ==> Distinct(queues[p]))
    && (forall p, t :: 0 <= p < |queues| ==> (t in queues[p] <==> t in stat && stat[t].Ready? && prio[t] == p))
  }

  /** Only the current thread runs, and it is on no queue. */
  ghost predicate OneRuns(current: Tid, stat: map<Tid, Stat>) {
    && NULL !in stat
    && (forall t :: t in stat && stat[t].Running? ==> t == current)
    && (current != NULL ==> current in stat && !stat[current].Ready? && !stat[current].Init?)
  }

  ghost predicate Sound(s: Fields) {
    && Indexed(s.queues, s.index)
    && Queued(s.queues, s.stat, s.prio)
    && OneRuns(s.current, s.stat)
  }

  // ----- a thread joins or leaves its queue -----

  ghost function Joined(queues: seq<seq<Tid>>, t: Tid, p: int): (r: seq<seq<Tid>>)
    requires 0 <= p < |queues|
  {
    queues[p := queues[p] + [t]]
  }

  ghost function Parted(queues: seq<seq<Tid>>, t: Tid, p: int): (r: seq<seq<Tid>>)
    requires 0 <= p < |queues|
  {
    queues[p := Without(queues[p], t)]
  }

  lemma JoinIndexed(queues: seq<seq<Tid>>, index: Index, t: Tid, p: int)
    requires Indexed(queues, index) && 0 <= p < |queues|
    ensures Indexed(Joined(queues, t, p), Marked(index, p))
  {
    hide Has, Good, Marked;
    MarkedHas(index, p, p);
    MarkedLimit(index, p);
    forall q | 0 <= q < Limit(index)
      ensures Good(Marked(index, p)) && Limit(Marked(index, p)) == Limit(index)
      ensures Has(Marked(index, p), q) <==> q < |queues| && Joined(queues, t, p)[q] != []
    {
      MarkedHas(index, p, q);
    }
  }

  lemma MarkedLimit(index: Index, p: int)
    requires Good(index) && 0 <= p < Limit(index)
    ensures Limit(Marked(index, p)) == Limit(index) == Limit(Cleared(index, p))
  {
  }

  lemma PartIndexed(queues: seq<seq<Tid>>, index: Index, t: Tid, p: int)
    requires Indexed(queues, index) && 0 <= p < |queues|
    ensures Indexed(Parted(queues, t, p), if Parted(queues, t, p)[p] == [] then Cleared(index, p) else index)
  {
    hide Has, Good, Cleared;
    if Parted(queues, t, p)[p] == [] {
      forall q | 0 <= q < Limit(index)
        ensures Good(Cleared(index, p)) && Limit(Cleared(index, p)) == Limit(index)
        ensures Has(Cleared(index, p), q) <==> q < |queues| && Parted(queues, t, p)[q] != []
      {
        ClearedHas(index, p, q);
        MarkedLimit(index, p);
      }
    } else {
      assert queues[p] != [];
    }
  }

  lemma PartAbsent(queues: seq<seq<Tid>>, index: Index, t: Tid, p: int)
    requires Indexed(queues, index) && 0 <= p < |queues|
    ensures t !in queues[p] ==> Parted(queues, t, p) == queues && (queues[p] == [] ==> Cleared(index, p) == index)
  {
    hide Has, Good, Cleared;
    if t !in queues[p] {
      WithoutAbsent(queues[p], t);
      if queues[p] == [] { ClearedAlready(index, p); }
    }
  }

  lemma JoinQueued(queues: seq<seq<Tid>>, stat: map<Tid, Stat>, prio: Priorities, t: Tid)
    requires Queued(queues, stat, prio) && t in stat && !stat[t].Ready?
    ensures Queued(Joined(queues, t, prio[t]), stat[t := Ready], prio)
  {
    assert t !in queues[prio[t]];
  }

  lemma PartQueued(queues: seq<seq<Tid>>, stat: map<Tid, Stat>, prio: Priorities, t: Tid, st: Stat)
    requires Queued(queues, stat, prio) && t in stat && !st.Ready?
    ensures Queued(Parted(queues, t, prio[t]), stat[t := st], prio)
  {
    WithoutKeeps(queues[prio[t]], t);
  }

  /** A thread that is on no queue changes its priority. */
  lemma RepriorQueued(queues: seq<seq<Tid>>, stat: map<Tid, Stat>, prio: Priorities, t: Tid, p: int)
    requires Queued(queues, stat, prio) && t in stat && !stat[t].Ready? && 0 <= p < |queues|
    ensures Queued(queues, stat, prio[t := p])
  {
  }

  // ----- the most urgent thread -----

  ghost predicate NoneBefore(queues: seq<seq<Tid>>, p: int) {
    forall q :: 0 <= q < p && q < |queues| ==> queues[q] == []
  }

  lemma HighestQueue(queues: seq<seq<Tid>>, index: Index)
    requires Indexed(queues, index) && index.group != 0
    ensures Good(index) && 0 <= Highest(index) < |queues| && queues[Highest(index)] != []
            && NoneBefore(queues, Highest(index))
  {
    hide Has, Good, Highest;
    HighestIsLeast(index);
  }

  lemma NoQueue(queues: seq<seq<Tid>>, index: Index)
    requires Indexed(queues, index)
    ensures index.group == 0 <==> NoneBefore(queues, |queues|)
  {
    hide Has, Good, Highest;
    NothingMarked(index);
    if index.group != 0 { HighestQueue(queues, index); }
  }

  /** Nobody ready is more urgent than `p`. */
  ghost predicate MostUrgent(p: int, stat: map<Tid, Stat>, prio: Priorities) {
    forall t :: t in stat && t in prio && stat[t].Ready? ==> p <= prio[t]
  }

  lemma NoneBeforeUrgent(queues: seq<seq<Tid>>, stat: map<Tid, Stat>, prio: Priorities, p: int)
    requires Queued(queues, stat, prio) && NoneBefore(queues, p)
    ensures MostUrgent(p, stat, prio)
  {
    forall t | t in stat && t in prio && stat[t].Ready?
      ensures p <= prio[t]
    {
      assert t in queues[prio[t]];
    }
  }

  /** The most urgent priority with a ready thread, or the number of priorities. */
  ghost function Least(queues: seq<seq<Tid>>): (p: int)
    ensures 0 <= p <= |queues| && (p < |queues| ==> queues[p] != [])
  {
    if queues == [] || queues[0] != [] then 0 else 1 + Least(queues[1..])
  }

  lemma {:induction false} LeastIs(queues: seq<seq<Tid>>, p: int)
    requires 0 <= p <= |queues| && NoneBefore(queues, p) && (p < |queues| ==> queues[p] != [])
    ensures Least(queues) == p
  {
    if p > 0 { LeastIs(queues[1..], p - 1); }
  }

  /** Queues, states and priorities agree, whatever the bitmaps say. */
  ghost predicate Settled(s: Fields) {
    Queued(s.queues, s.stat, s.prio) && OneRuns(s.current, s.stat)
  }

  /** What a switch to the first thread of queue `p` leaves: a thread that was running goes to the end of its queue. */
  ghost function Switched(s: Fields, p: int): (r: Fields)
    requires Settled(s) && s.current != NULL && 0 <= p < |s.queues| && s.queues[p] != []
  {
    var to, from := s.queues[p][0], s.current;
    var queues := if s.stat[from].Running? then Joined(s.queues, from, s.prio[from]) else s.queues;
    var stat := if s.stat[from].Running? then s.stat[from := Ready] else s.stat;
    s.(queues := queues[p := queues[p][1..]], current := to, stat := stat[to := Running])
  }

  /** The effect of rt_schedule, bitmaps aside: a running thread stays only if it is more urgent than all others. */
  ghost function Scheduled(s: Fields, locked: bool): (r: Fields)
    requires Settled(s) && s.current != NULL
  {
    var p := Least(s.queues);
    if locked || p == |s.queues| || (s.stat[s.current].Running? && s.prio[s.current] < p) then s
    else Switched(s, p)
  }

  /** The first thread of the first queue that is not empty runs. */
  ghost predicate Started(s: Fields, s': Fields) {
    var p := Least(s.queues);
    && 0 <= p < |s.queues| && s.queues[p] != []
    && var to := s.queues[p][0];
       s' == s.(queues := s.queues[p := s.queues[p][1..]], current := to, stat := s.stat[to := Running],
                index := s'.index)
  }

  lemma SwitchedQueues(s: Fields, p: int)
    requires Sound(s) && s.current != NULL && 0 <= p < |s.queues| && s.queues[p] != []
    ensures var to := s.queues[p][0];
            && to in s.prio && s.prio[to] == p && to != s.current
            && Parted(s.queues, to, p) == s.queues[p := s.queues[p][1..]]
            && var queues := Joined(s.queues, s.current, s.prio[s.current]);
            s.stat[s.current].Running? ==> Parted(queues, to, p) == queues[p := queues[p][1..]]
  {
    hide Indexed;
    var to := s.queues[p][0];
    assert to in s.queues[p];
    WithoutFirst(s.queues[p]);
    if s.stat[s.current].Running? {
      JoinQueued(s.queues, s.stat, s.prio, s.current);
      WithoutFirst(Joined(s.queues, s.current, s.prio[s.current])[p]);
    }
  }

  lemma SwitchStep(s: Fields, p: int, index: Index)
    requires Sound(s) && s.current != NULL && 0 <= p < |s.queues| && s.queues[p] != [] && NoneBefore(s.queues, p)
    requires s.stat[s.current].Running? ==> p <= s.prio[s.current]
    requires Indexed(Switched(s, p).queues, index)
    ensures var r := Switched(s, p).(index := index);
            Sound(r) && MostUrgent(p, r.stat, r.prio) && r.prio[r.current] == p && r.stat[r.current].Running?
  {
    hide Indexed;
    var to, from := s.queues[p][0], s.current;
    assert to in s.queues[p];
    var queues := if s.stat[from].Running? then Joined(s.queues, from, s.prio[from]) else s.queues;
    var stat := if s.stat[from].Running? then s.stat[from := Ready] else s.stat;
    if s.stat[from].Running? { JoinQueued(s.queues, s.stat, s.prio, from); }
    assert queues[p][0] == to;
    PartQueued(queues, stat, s.prio, to, Running);
    WithoutFirst(queues[p]);
    NoneBeforeUrgent(Switched(s, p).queues, stat[to := Running], s.prio, p);
  }

  // ----- the scheduler -----

  class Scheduler {
    var s: Fields
    var lockNest: int

    ghost predicate Valid()
      reads this
    {
      Sound(s)
    }

    /** rt_system_scheduler_init, with `max` priorities and threads that have been initialised but not started. */
    constructor (max: nat, prio: Priorities)
      requires 0 < max <= 256 && NULL !in prio && forall t :: t in prio ==> 0 <= prio[t] < max
      ensures Valid() && |s.queues| == max && lockNest == 0 && s.current == NULL && s.prio == prio
      ensures s.index.TwoLevel? <==> max > 32
    {
      var queues := seq(max, _ => []);
      var index := if max > 32 then TwoLevel(0, seq(32, _ => 0)) else Flat(0);
      EmptyIndexed(queues, index);
      s := Fields(queues, index, NULL, map t | t in prio :: Init, prio);
      lockNest := 0;
    }

    /** rt_schedule_insert_thread. */
    method Insert(m: Fields, t: Tid) returns (r: Fields)
      requires Indexed(m.queues, m.index) && t in m.stat && t in m.prio && 0 <= m.prio[t] < |m.queues|
      ensures t == m.current ==> r == m.(stat := m.stat[t := Running])
      ensures t != m.current ==>
                && Indexed(r.queues, r.index)
                && r == m.(stat := m.stat[t := Ready], queues := Joined(m.queues, t, m.prio[t]), index := r.index)
                && r.queues[m.prio[t]] == m.queues[m.prio[t]] + [t]
    {
      r := m;
      if t == r.current {
        r := r.(stat := r.stat[t := Running]);
        return;
      }
      JoinIndexed(m.queues, m.index, t, m.prio[t]);
      r := r.(stat := r.stat[t := Ready]);
      r := r.(queues := r.queues[r.prio[t] := r.queues[r.prio[t]] + [t]]);
      r := r.(index := Marked(r.index, r.prio[t]));
    }

    /** rt_schedule_remove_thread. */
    method Remove(m: Fields, t: Tid) returns (r: Fields)
      requires Indexed(m.queues, m.index) && t in m.prio && 0 <= m.prio[t] < |m.queues|
      ensures Indexed(r.queues, r.index)
      ensures r == m.(queues := Parted(m.queues, t, m.prio[t]), index := r.index)
      ensures t !in m.queues[m.prio[t]] ==> r == m
    {
      r := m;
      PartAbsent(m.queues, m.index, t, m.prio[t]);
      PartIndexed(m.queues, m.index, t, m.prio[t]);
      r := r.(queues := r.queues[r.prio[t] := Without(r.queues[r.prio[t]], t)]);
      if r.queues[r.prio[t]] == [] {
        r := r.(index := Cleared(r.index, r.prio[t]));
      }
    }

    /** rt_system_scheduler_start. */
    method Begin()
      requires Valid() && s.current == NULL && s.index.group != 0
      modifies this
      ensures Valid() && s.current != NULL && s.stat[s.current].Running?
      ensures MostUrgent(s.prio[s.current], s.stat, s.prio)
      ensures s.prio == old(s.prio) && lockNest == old(lockNest)
      ensures Started(old(s), s)
    {
      hide Indexed;
      HighestQueue(s.queues, s.index);
      var p := Highest(s.index);
      LeastIs(s.queues, p);
      var to := s.queues[p][0];
      assert to in s.queues[p];
      PartQueued(s.queues, s.stat, s.prio, to, Running);
      WithoutFirst(s.queues[p]);
      var m := s.(current := to);
      m := Remove(m, to);
      m := m.(stat := m.stat[to := Running]);
      NoneBeforeUrgent(m.queues, m.stat, m.prio, p);
      s := m;
    }

    /**
     rt_schedule.

     Afterwards, unless scheduling is locked, nobody ready is more urgent than the current thread, and the
     current thread runs if anybody can.  A running thread that is not more urgent than all others gives
     way and goes to the end of its queue.
     */
    method Schedule()
      requires Valid() && s.current != NULL
      modifies this`s
      ensures Valid() && s.current != NULL
      ensures s == Scheduled(old(s), lockNest != 0).(index := s.index)
      ensures s.current != old(s.current) <==>
                && lockNest == 0 && !NoneBefore(old(s.queues), |old(s.queues)|)
                && (old(s.stat[s.current]).Running? ==>
                      !NoneBefore(old(s.queues), old(s.prio[s.current]) + 1))
      ensures s.current == old(s.current) ==> s == old(s).(index := s.index)
      ensures s.current != old(s.current) ==>
                var p, from, running := s.prio[s.current], old(s.current), old(s.stat[s.current]).Running?;
                var m := if running then old(s.queues)[s.prio[from] := old(s.queues)[s.prio[from]] + [from]]
                         else old(s.queues);
                && NoneBefore(old(s.queues), p) && old(s.queues)[p] != [] && s.current == old(s.queues)[p][0]
                && s.queues == m[p := m[p][1..]]
                && s.stat == (if running then old(s.stat)[from := Ready] else old(s.stat))[s.current := Running]
      ensures lockNest == 0 && !NoneBefore(old(s.queues), |old(s.queues)|) ==> s.stat[s.current].Running?
      ensures lockNest == 0 ==> MostUrgent(s.prio[s.current], s.stat, s.prio)
    {
      hide Indexed, Highest, Good, Has;
      NoQueue(s.queues, s.index);
      if lockNest != 0 { return; }
      if s.index.group == 0 {
        LeastIs(s.queues, |s.queues|);
        NoneBeforeUrgent(s.queues, s.stat, s.prio, |s.queues|);
        return;
      }
      HighestQueue(s.queues, s.index);
      var needInsert := false;
      var p := Highest(s.index);
      LeastIs(s.queues, p);
      var to := s.queues[p][0];
      assert to in s.queues[p];
      if s.stat[s.current].Running? {
        if s.prio[s.current] < p { to := s.current; } else { needInsert := true; }
      }
      if to != s.current {
        var from, m := s.current, s.(current := to);
        SwitchedQueues(s, p);
        if needInsert { m := Insert(m, from); }
        m := Remove(m, to);
        m := m.(stat := m.stat[to := Running]);
        SwitchStep(s, p, m.index);
        s := m;
      } else {
        var m := Remove(s, to);
        assert m.stat[to := Running] == m.stat;
        s := m.(stat := m.stat[to := Running]);
        NoneBeforeUrgent(s.queues, s.stat, s.prio, p);
      }
    }

    /** rt_thread_resume: the thread goes to the end of its queue, or runs on if it never left the processor. */
    method Resume(t: Tid) returns (ok: bool)
      requires Valid() && t in s.stat
      modifies this`s
      ensures Valid() && s.prio == old(s.prio) && s.current == old(s.current)
      ensures ok == old(s.stat[t]).Suspend?
      ensures !ok ==> s == old(s)
      ensures ok ==> s.stat == old(s.stat)[t := if t == s.current then Running else Ready]
      ensures ok ==> s.queues == if t == s.current then old(s.queues) else Joined(old(s.queues), t, s.prio[t])
    {
      hide Indexed;
      if !s.stat[t].Suspend? { return false; }
      JoinQueued(s.queues, s.stat, s.prio, t);
      StaysOff(s.queues, s.stat, s.prio, t, Running);
      s := Insert(s, t);
      return true;
    }

    /** rt_thread_suspend. */
    method Suspend(t: Tid) returns (ok: bool)
      requires Valid() && t in s.stat
      modifies this`s
      ensures Valid() && s.prio == old(s.prio) && s.current == old(s.current)
      ensures ok == (old(s.stat[t]).Ready? || old(s.stat[t]).Running?)
      ensures !ok ==> s == old(s)
      ensures ok ==> s.stat == old(s.stat)[t := Stat.Suspend] && s.queues == Parted(old(s.queues), t, s.prio[t])
    {
      hide Indexed;
      if !s.stat[t].Ready? && !s.stat[t].Running? { return false; }
      PartQueued(s.queues, s.stat, s.prio, t, Stat.Suspend);
      var m := Remove(s, t);
      s := m.(stat := m.stat[t := Stat.Suspend]);
      return true;
    }

    /** rt_thread_startup. */
    method Startup(t: Tid, initPriority: int)
      requires Valid() && t in s.stat && s.stat[t].Init? && 0 <= initPriority < |s.queues|
      modifies this`s
      ensures Valid() && s.prio == old(s.prio)[t := initPriority] && (old(s.current) != NULL ==> s.current != NULL)
      ensures var m := old(s).(prio := old(s.prio)[t := initPriority], stat := old(s.stat)[t := Ready],
                               queues := Joined(old(s.queues), t, initPriority));
              && Settled(m)
              && s == (if m.current == NULL then m else Scheduled(m, lockNest != 0)).(index := s.index)
      ensures s.stat[t].Ready? || s.stat[t].Running?
      ensures s.current != NULL && lockNest == 0 ==> MostUrgent(s.prio[s.current], s.stat, s.prio)
    {
      hide Indexed, NoneBefore, Least;
      RepriorQueued(s.queues, s.stat, s.prio, t, initPriority);
      StaysOff(s.queues, s.stat, s.prio[t := initPriority], t, Stat.Suspend);
      s := s.(prio := s.prio[t := initPriority]);
      s := s.(stat := s.stat[t := Stat.Suspend]);
      assert old(s.stat)[t := Stat.Suspend][t := Ready] == old(s.stat)[t := Ready];
      var _ := Resume(t);
      ScheduledSame(s, s.(index := old(s.index)), lockNest != 0);
      if s.current != NULL { Schedule(); }
    }

    /** rt_thread_timeout. */
    method Timeout(t: Tid)
      requires Valid() && t in s.stat && s.stat[t].Suspend? && s.current != NULL
      modifies this`s
      ensures Valid() && s.prio == old(s.prio) && s.current != NULL
      ensures var m := if t == old(s.current) then old(s).(stat := old(s.stat)[t := Running])
                       else old(s).(stat := old(s.stat)[t := Ready], queues := Joined(old(s.queues), t, s.prio[t]));
              Settled(m) && s == Scheduled(m, lockNest != 0).(index := s.index)
      ensures s.stat[t].Ready? || s.stat[t].Running?
      ensures lockNest == 0 ==> MostUrgent(s.prio[s.current], s.stat, s.prio)
    {
      hide Indexed, NoneBefore, Least;
      JoinQueued(s.queues, s.stat, s.prio, t);
      StaysOff(s.queues, s.stat, s.prio, t, Running);
      s := Insert(s, t);
      ScheduledSame(s, s.(index := old(s.index)), lockNest != 0);
      Schedule();
    }

    /** rt_thread_control(RT_THREAD_CTRL_CHANGE_PRIORITY): a ready thread moves to the end of its new queue. */
    method ChangePriority(t: Tid, p: int)
      requires Valid() && t in s.stat && 0 <= p < |s.queues|
      modifies this`s
      ensures Valid() && s.prio == old(s.prio)[t := p] && s.stat == old(s.stat) && s.current == old(s.current)
      ensures s.queues == if s.stat[t].Ready? then Joined(Parted(old(s.queues), t, old(s.prio[t])), t, p)
                          else old(s.queues)
    {
      hide Indexed;
      if s.stat[t].Ready? {
        PartQueued(s.queues, s.stat, s.prio, t, Stat.Suspend);
        var m := Remove(s, t);
        RepriorQueued(m.queues, s.stat[t := Stat.Suspend], s.prio, t, p);
        JoinQueued(m.queues, s.stat[t := Stat.Suspend], s.prio[t := p], t);
        assert s.stat[t := Stat.Suspend][t := Ready] == s.stat;
        m := m.(prio := m.prio[t := p]);
        assert m.stat[t := Ready] == m.stat;
        s := Insert(m, t);
      } else {
        RepriorQueued(s.queues, s.stat, s.prio, t, p);
        s := s.(prio := s.prio[t := p]);
      }
    }

    /** rt_thread_delete or rt_thread_detach. */
    method Delete(t: Tid)
      requires Valid() && t in s.stat
      modifies this`s
      ensures Valid() && s.prio == old(s.prio) && s.current == old(s.current)
      ensures s.stat == old(s.stat)[t := Close] && s.queues == Parted(old(s.queues), t, s.prio[t])
    {
      hide Indexed;
      PartQueued(s.queues, s.stat, s.prio, t, Close);
      PartAbsent(s.queues, s.index, t, s.prio[t]);
      var m := s;
      if !m.stat[t].Init? { m := Remove(m, t); }
      s := m.(stat := m.stat[t := Close]);
    }

    /** rt_thread_exit. */
    method Exit()
      requires Valid() && s.current != NULL && s.stat[s.current].Running?
      modifies this`s
      ensures Valid() && s.prio == old(s.prio) && s.current != NULL
      ensures var t := old(s.current);
              var m := old(s).(stat := old(s.stat)[t := Close], queues := Parted(old(s.queues), t, s.prio[t]));
              Settled(m) && s == Scheduled(m, lockNest != 0).(index := s.index)
      ensures s.stat[old(s.current)] == Close
      ensures lockNest == 0 ==> MostUrgent(s.prio[s.current], s.stat, s.prio)
    {
      hide Indexed, NoneBefore, Least;
      Delete(s.current);
      ScheduledSame(s, s.(index := old(s.index)), lockNest != 0);
      Schedule();
    }

    /** rt_enter_critical. */
    method EnterCritical()
      modifies this`lockNest
      ensures lockNest == old(lockNest) + 1
    {
      lockNest := lockNest + 1;
    }

    /** rt_exit_critical. */
    method ExitCritical()
      requires Valid()
      modifies this
      ensures Valid() && (old(s.current) != NULL ==> s.current != NULL)
      ensures lockNest == if old(lockNest) <= 1 then 0 else old(lockNest) - 1
      ensures lockNest == 0 && s.current != NULL ==> MostUrgent(s.prio[s.current], s.stat, s.prio)
      ensures s == if lockNest == 0 && old(s.current) != NULL then Scheduled(old(s), false).(index := s.index)
                   else old(s)
    {
      lockNest := lockNest - 1;
      if lockNest <= 0 {
        lockNest := 0;
        if s.current != NULL { Schedule(); }
      }
    }
  }

  /** A thread that is on no queue changes between states that are on no queue. */
  lemma StaysOff(queues: seq<seq<Tid>>, stat: map<Tid, Stat>, prio: Priorities, t: Tid, st: Stat)
    requires Queued(queues, stat, prio) && t in stat && !stat[t].Ready? && !st.Ready?
    ensures Queued(queues, stat[t := st], prio)
  {
  }

  /** The bitmaps do not matter for what a schedule does to the rest. */
  lemma ScheduledSame(s: Fields, s': Fields, locked: bool)
    requires Settled(s) && s' == s.(index := s'.index)
    ensures Settled(s')
    ensures s.current != NULL ==>
              forall x :: Scheduled(s, locked).(index := x) == Scheduled(s', locked).(index := x)
  {
  }

  lemma EmptyIndexed(queues: seq<seq<Tid>>, index: Index)
    requires forall p :: 0 <= p < |queues| ==> queues[p] == []
    requires index == if |queues| > 32 then TwoLevel(0, seq(32, _ => 0)) else Flat(0)
    requires |queues| <= 256
    ensures Indexed(queues, index)
  {
    ZeroIsGood(index);
    NothingMarked(index);
  }

  lemma ZeroIsGood(index: Index)
    requires index.group == 0 && (index.TwoLevel? ==> index.table == seq(32, _ => 0))
    ensures Good(index)
  {
    if index.TwoLevel? {
      forall n | 0 <= n < 32
        ensures index.table[n] == 0 && !Words.Bit(0, n)
      {
        Words.NoBits(0, n);
      }
    }
  }

  // ----- taking turns -----

  /** The current thread and those that wait behind it for its priority. */
  ghost function Order(s: Fields): (r: seq<Tid>)
    requires s.current in s.prio && 0 <= s.prio[s.current] < |s.queues|
  {
    [s.current] + s.queues[s.prio[s.current]]
  }

  ghost function Rotated(order: seq<Tid>, n: nat): (r: seq<Tid>)
    requires order != []
    decreases n
  {
    if n == 0 then order else Rotated(order[1..] + [order[0]], n - 1)
  }

  lemma {:induction false} RotatedIs(order: seq<Tid>, n: nat)
    requires order != [] && n <= |order|
    ensures Rotated(order, n) == order[n..] + order[..n]
    decreases n
  {
    if n > 0 {
      var turned := order[1..] + [order[0]];
      RotatedIs(turned, n - 1);
      assert turned[n - 1..] + turned[..n - 1] == order[n..] + order[..n];
    }
  }

  lemma {:induction false} RotatedMore(order: seq<Tid>, n: nat)
    requires order != []
    ensures Rotated(order, n) != []
    ensures Rotated(order, n + 1) == Rotated(order, n)[1..] + [Rotated(order, n)[0]]
    decreases n
  {
    if n > 0 { RotatedMore(order[1..] + [order[0]], n - 1); }
  }

  /** One schedule among threads of the current priority moves the turn on by one. */
  lemma SwitchRotates(s: Fields, p: int)
    requires Sound(s) && s.current != NULL && s.stat[s.current].Running? && s.prio[s.current] == p
    requires 0 <= p < |s.queues| && s.queues[p] != []
    ensures var r := Switched(s, p);
            && r.current in r.prio && r.prio[r.current] == p && Order(r) == Order(s)[1..] + [Order(s)[0]]
            && forall q :: 0 <= q < |s.queues| && q != p ==> r.queues[q] == s.queues[q]
  {
    hide Indexed;
    var to := s.queues[p][0];
    assert to in s.queues[p];
    assert Order(s)[1..] == s.queues[p];
  }

  /** The current thread runs, and no more urgent one is ready. */
  ghost predicate HasTurn(s: Fields, p: int) {
    && Sound(s) && s.current != NULL && s.stat[s.current].Running? && s.prio[s.current] == p
    && NoneBefore(s.queues, p)
  }

  ghost predicate SameElsewhere(queues: seq<seq<Tid>>, queues': seq<seq<Tid>>, p: int) {
    |queues'| == |queues| && forall q :: 0 <= q < |queues| && q != p ==> queues'[q] == queues[q]
  }

  method TakeTurn(sch: Scheduler, ghost p: int)
    requires HasTurn(sch.s, p) && sch.lockNest == 0
    modifies sch`s
    ensures HasTurn(sch.s, p) && sch.s.prio == old(sch.s.prio)
    ensures SameElsewhere(old(sch.s.queues), sch.s.queues, p)
    ensures Order(sch.s) == old(Order(sch.s))[1..] + [old(Order(sch.s))[0]]
  {
    hide Indexed, Queued, OneRuns;
    ghost var before := sch.s;
    CurrentKnown(before);
    sch.Schedule();
    if before.queues[p] == [] {
      AloneStays(before, p);
    } else {
      LeastIs(before.queues, p);
      SwitchRotates(before, p);
    }
  }

  lemma CurrentKnown(s: Fields)
    requires Sound(s) && s.current != NULL
    ensures s.current in s.prio && 0 <= s.prio[s.current] < |s.queues|
  {
  }

  /** As many schedules as there are threads of the current priority give everyone a turn and restore the order. */
  method TakeTurns(sch: Scheduler, n: nat, ghost p: int)
    requires HasTurn(sch.s, p) && sch.lockNest == 0
    modifies sch`s
    ensures HasTurn(sch.s, p) && sch.s.prio == old(sch.s.prio)
    ensures Order(sch.s) == Rotated(old(Order(sch.s)), n)
    ensures n == |old(Order(sch.s))| ==> sch.s.current == old(sch.s.current) && sch.s.queues == old(sch.s.queues)
  {
    hide Indexed;
    ghost var order := Order(sch.s);
    for k := 0 to n
      invariant HasTurn(sch.s, p) && sch.s.prio == old(sch.s.prio)
      invariant SameElsewhere(old(sch.s.queues), sch.s.queues, p)
      invariant Order(sch.s) == Rotated(order, k)
    {
      RotatedMore(order, k);
      TakeTurn(sch, p);
    }
    CurrentKnown(sch.s);
    if n == |order| {
      RotatedIs(order, n);
      assert order[n..] + order[..n] == order;
      OrderFixes(old(sch.s), sch.s, p);
    }
  }

  lemma OrderFixes(s: Fields, s': Fields, p: int)
    requires s.current in s.prio && s'.current in s'.prio && s.prio[s.current] == s'.prio[s'.current] == p
    requires 0 <= p < |s.queues| && SameElsewhere(s.queues, s'.queues, p) && Order(s) == Order(s')
    ensures s.current == s'.current && s.queues == s'.queues
  {
    assert Order(s)[0] == s.current && Order(s)[1..] == s.queues[p];
    assert Order(s')[0] == s'.current && Order(s')[1..] == s'.queues[p];
  }

  lemma AloneStays(s: Fields, p: int)
    requires s.current in s.prio && s.prio[s.current] == p && 0 <= p < |s.queues|
    requires NoneBefore(s.queues, p) && s.queues[p] == []
    ensures Least(s.queues) > p && Order(s) == [s.current] && Order(s)[1..] + [Order(s)[0]] == Order(s)
  {
    LeastBeyond(s.queues, p + 1);
  }

  lemma {:induction false} LeastBeyond(queues: seq<seq<Tid>>, p: int)
    requires 0 <= p <= |queues| && NoneBefore(queues, p)
    ensures Least(queues) >= p
  {
    if p > 0 { LeastBeyond(queues[1..], p - 1); }
  }

  // ----- runs -----

  datatype Step =
    | Begins
    | Schedules
    | Starts(t: Tid, p: int)
    | Suspends(t: Tid)
    | Resumes(t: Tid)
    | TimesOut(t: Tid)
    | Reprioritises(t: Tid, p: int)
    | Deletes(t: Tid)
    | Exits
    | Locks
    | Unlocks

  predicate Enabled(step: Step, s: Fields) {
    match step
    case Begins => s.current == NULL && s.index.group != 0
    case Schedules => s.current != NULL
    case Starts(t, p) => t in s.stat && s.stat[t].Init? && 0 <= p < |s.queues|
    case Suspends(t) => t in s.stat
    case Resumes(t) => t in s.stat
    case TimesOut(t) => t in s.stat && s.stat[t].Suspend? && s.current != NULL
    case Reprioritises(t, p) => t in s.stat && 0 <= p < |s.queues|
    case Deletes(t) => t in s.stat
    case Exits => s.current in s.stat && s.stat[s.current].Running?
    case Locks => true
    case Unlocks => true
  }

  /** A thread joins its queue and the scheduler runs, if it runs at all. */
  ghost predicate Rescheduled(m: Fields, s': Fields, locked: bool) {
    Settled(m) && s' == (if m.current == NULL then m else Scheduled(m, locked)).(index := s'.index)
  }

  /** The threads, queues and lock counter of a scheduler. */
  datatype Picture = Picture(s: Fields, lock: int)

  ghost function PictureOf(sch: Scheduler): (p: Picture)
    reads sch
  {
    Picture(sch.s, sch.lockNest)
  }

  /** What each step does, the bitmaps aside; one that is not possible does nothing. */
  ghost predicate Did(step: Step, a: Picture, b: Picture) {
    var s, s' := a.s, b.s;
    if !Enabled(step, s) then b == a
    else
      match step
      case Begins => Started(s, s') && b.lock == a.lock
      case Schedules => Rescheduled(s, s', a.lock != 0) && b.lock == a.lock
      case Starts(t, p) =>
        && 0 <= p < |s.queues| && b.lock == a.lock
        && Rescheduled(s.(prio := s.prio[t := p], stat := s.stat[t := Ready], queues := Joined(s.queues, t, p)), s',
                       a.lock != 0)
      case Suspends(t) =>
        && t in s.prio && 0 <= s.prio[t] < |s.queues| && b.lock == a.lock
        && if s.stat[t].Ready? || s.stat[t].Running?
           then s' == s.(stat := s.stat[t := Stat.Suspend], queues := Parted(s.queues, t, s.prio[t]), index := s'.index)
           else s' == s
      case Resumes(t) =>
        && t in s.prio && 0 <= s.prio[t] < |s.queues| && b.lock == a.lock
        && if s.stat[t].Suspend? then s' == Woken(s, t).(index := s'.index) else s' == s
      case TimesOut(t) =>
        && t in s.prio && 0 <= s.prio[t] < |s.queues| && b.lock == a.lock
        && Rescheduled(Woken(s, t), s', a.lock != 0)
      case Reprioritises(t, p) =>
        && t in s.prio && 0 <= s.prio[t] < |s.queues| && 0 <= p < |s.queues| && b.lock == a.lock
        && s' == s.(prio := s.prio[t := p], index := s'.index,
                    queues := if s.stat[t].Ready? then Joined(Parted(s.queues, t, s.prio[t]), t, p) else s.queues)
      case Deletes(t) =>
        && t in s.prio && 0 <= s.prio[t] < |s.queues| && b.lock == a.lock
        && s' == s.(stat := s.stat[t := Close], queues := Parted(s.queues, t, s.prio[t]), index := s'.index)
      case Exits =>
        var t := s.current;
        && t in s.prio && 0 <= s.prio[t] < |s.queues| && b.lock == a.lock
        && Rescheduled(s.(stat := s.stat[t := Close], queues := Parted(s.queues, t, s.prio[t])), s', a.lock != 0)
      case Locks => b == a.(lock := a.lock + 1)
      case Unlocks =>
        && b.lock == (if a.lock <= 1 then 0 else a.lock - 1)
        && if b.lock == 0 && s.current != NULL then Rescheduled(s, s', false) else s' == s
  }

  /** A suspended thread is ready again, or running if it never left the processor. */
  ghost function Woken(s: Fields, t: Tid): (r: Fields)
    requires t in s.prio && 0 <= s.prio[t] < |s.queues|
  {
    if t == s.current then s.(stat := s.stat[t := Running])
    else s.(stat := s.stat[t := Ready], queues := Joined(s.queues, t, s.prio[t]))
  }

  method Act(sch: Scheduler, step: Step)
    requires sch.Valid()
    modifies sch
    ensures sch.Valid() && Did(step, old(PictureOf(sch)), PictureOf(sch))
  {
    hide Sound, Scheduled, Parted, Joined, Settled, Started;
    SettledIs(sch.s);
    if Enabled(step, sch.s) {
      match step
      case Begins => sch.Begin();
      case Schedules => sch.Schedule();
      case Starts(t, p) => sch.Startup(t, p);
      case Suspends(t) => var _ := sch.Suspend(t);
      case Resumes(t) => var _ := sch.Resume(t);
      case TimesOut(t) => sch.Timeout(t);
      case Reprioritises(t, p) => sch.ChangePriority(t, p);
      case Deletes(t) => sch.Delete(t);
      case Exits => RunningIsSomeone(sch.s); sch.Exit();
      case Locks => sch.EnterCritical();
      case Unlocks => sch.ExitCritical();
    }
  }

  lemma SettledIs(s: Fields)
    requires Sound(s)
    ensures Settled(s) && forall t :: t in s.stat ==> t in s.prio && 0 <= s.prio[t] < |s.queues|
  {
  }

  /** Every run of thread operations does what they say and keeps queues, index and states in agreement. */
  method Run(sch: Scheduler, steps: seq<Step>) returns (ghost pictures: seq<Picture>)
    requires sch.Valid()
    modifies sch
    ensures sch.Valid()
    ensures |pictures| == |steps| + 1 && pictures[0] == old(PictureOf(sch)) && pictures[|steps|] == PictureOf(sch)
    ensures forall i :: 0 <= i < |steps| ==> Did(steps[i], pictures[i], pictures[i + 1])
  {
    hide Sound, Did;
    pictures := [PictureOf(sch)];
    for i := 0 to |steps|
      invariant sch.Valid() && |pictures| == i + 1
      invariant pictures[0] == old(PictureOf(sch)) && pictures[i] == PictureOf(sch)
      invariant forall k :: 0 <= k < i ==> Did(steps[k], pictures[k], pictures[k + 1])
    {
      Act(sch, steps[i]);
      pictures := pictures + [PictureOf(sch)];
    }
  }

  lemma RunningIsSomeone(s: Fields)
    requires Sound(s) && s.current in s.stat
    ensures s.current != NULL
  {
  }
}
