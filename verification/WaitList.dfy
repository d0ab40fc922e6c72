/** The list of threads suspended on a kernel object, in order of arrival or of priority. */
module WaitList {
  import opened Lists

  type Tid = int

  /** RT_IPC_FLAG_FIFO or RT_IPC_FLAG_PRIO. */
  datatype Flag = Fifo | Prio

  /** Smaller numbers are more urgent. */
  type Priorities = map<Tid, int>

  ghost predicate Known(list: seq<Tid>, prio: Priorities) {
    forall i :: 0 <= i < |list| ==> list[i] in prio
  }

  ghost predicate MostUrgentFirst(list: seq<Tid>, prio: Priorities)
    requires Known(list, prio)
  {
    forall i, j :: 0 <= i < j < |list| ==> prio[list[i]] <= prio[list[j]]
  }

  /** Where rt_ipc_list_suspend puts a thread. */
  function Place(list: seq<Tid>, t: Tid, prio: Priorities, flag: Flag): (p: nat)
    requires Known(list, prio) && t in prio
    ensures p <= |list|
  {
    if flag.Fifo? || list == [] then |list|
    else if prio[t] < prio[list[0]] then 0
    else 1 + Place(list[1..], t, prio, flag)
  }

  function Suspended(list: seq<Tid>, t: Tid, prio: Priorities, flag: Flag): (r: seq<Tid>)
    requires Known(list, prio) && t in prio
    ensures |r| == |list| + 1
    ensures forall x :: x in r <==> x in list || x == t
  {
    var p := Place(list, t, prio, flag);
    assert list == list[..p] + list[p..];
    list[..p] + [t] + list[p..]
  }

  lemma SuspendedKeeps(list: seq<Tid>, t: Tid, prio: Priorities, flag: Flag)
    requires Known(list, prio) && t in prio && Distinct(list) && t !in list
    ensures Known(Suspended(list, t, prio, flag), prio) && Distinct(Suspended(list, t, prio, flag))
  {
    var p := Place(list, t, prio, flag);
    var r := Suspended(list, t, prio, flag);
    assert forall i :: 0 <= i < |r| ==> r[i] == if i < p then list[i] else if i == p then t else list[i - 1];
  }

  /** The place found by priority: behind everything at least as urgent, in front of everything less urgent. */
  lemma {:induction false} PlaceByPriority(list: seq<Tid>, t: Tid, prio: Priorities)
    requires Known(list, prio) && t in prio && MostUrgentFirst(list, prio)
    ensures var p := Place(list, t, prio, Prio);
            && (forall i :: 0 <= i < p ==> prio[list[i]] <= prio[t])
            && (forall i :: p <= i < |list| ==> prio[t] < prio[list[i]])
  {
    if list != [] && prio[t] >= prio[list[0]] {
      PlaceByPriority(list[1..], t, prio);
      var p := Place(list[1..], t, prio, Prio);
      assert forall i :: 0 < i < |list| ==> list[i] == list[1..][i - 1];
    }
  }

  lemma SuspendedSorted(list: seq<Tid>, t: Tid, prio: Priorities)
    requires Known(list, prio) && t in prio && MostUrgentFirst(list, prio)
    ensures Known(Suspended(list, t, prio, Prio), prio)
    ensures MostUrgentFirst(Suspended(list, t, prio, Prio), prio)
  {
    PlaceByPriority(list, t, prio);
    var p := Place(list, t, prio, Prio);
    var r := Suspended(list, t, prio, Prio);
    assert forall i :: 0 <= i < |r| ==> r[i] == if i < p then list[i] else if i == p then t else list[i - 1];
  }

  /** By arrival, a thread goes to the end. */
  lemma SuspendedLast(list: seq<Tid>, t: Tid, prio: Priorities)
    requires Known(list, prio) && t in prio
    ensures Suspended(list, t, prio, Fifo) == list + [t]
  {
    assert list == list[..|list|] && list[|list|..] == [];
  }

  /** The loop of rt_ipc_list_suspend. */
  method Suspend(list: seq<Tid>, t: Tid, prio: Priorities, flag: Flag) returns (r: seq<Tid>)
    requires Known(list, prio) && t in prio
    ensures r == Suspended(list, t, prio, flag)
    ensures flag.Fifo? ==> r == list + [t]
    ensures flag.Prio? && MostUrgentFirst(list, prio) ==>
              exists p :: 0 <= p <= |list| && r == list[..p] + [t] + list[p..] &&
                          (forall i :: 0 <= i < p ==> prio[list[i]] <= prio[t]) &&
                          (forall i :: p <= i < |list| ==> prio[t] < prio[list[i]])
  {
    if flag.Fifo? {
      SuspendedLast(list, t, prio);
      return list + [t];
    }
    if MostUrgentFirst(list, prio) { PlaceByPriority(list, t, prio); }
    var n := 0;
    while n < |list| && !(prio[t] < prio[list[n]])
      invariant n <= |list|
      invariant Place(list, t, prio, flag) == n + Place(list[n..], t, prio, flag)
    {
      assert list[n..][1..] == list[n + 1..];
      n := n + 1;
    }
    r := list[..n] + [t] + list[n..];
  }

  // ----- taking a thread off the list -----

  lemma {:induction false} WithoutSorted(list: seq<Tid>, t: Tid, prio: Priorities)
    requires Known(list, prio) && MostUrgentFirst(list, prio)
    ensures Known(Without(list, t), prio) && MostUrgentFirst(Without(list, t), prio)
  {
    if list != [] {
      WithoutSorted(list[1..], t, prio);
      var rest := Without(list[1..], t);
      if list[0] != t {
        forall j | 0 <= j < |rest|
          ensures rest[j] in prio && prio[list[0]] <= prio[rest[j]]
        {
          assert rest[j] in list[1..];
        }
      }
    }
  }

  // ----- the order a waiting list keeps -----

  ghost predicate Ordered(list: seq<Tid>, prio: Priorities, flag: Flag) {
    Known(list, prio) && (flag.Prio? ==> MostUrgentFirst(list, prio))
  }

  lemma SuspendedOrdered(list: seq<Tid>, t: Tid, prio: Priorities, flag: Flag)
    requires Ordered(list, prio, flag) && t in prio && Distinct(list) && t !in list
    ensures Ordered(Suspended(list, t, prio, flag), prio, flag)
  {
    SuspendedKeeps(list, t, prio, flag);
    if flag.Prio? { SuspendedSorted(list, t, prio); }
  }

  lemma {:induction false} WithoutOrdered(list: seq<Tid>, t: Tid, prio: Priorities, flag: Flag)
    requires Ordered(list, prio, flag)
    ensures Ordered(Without(list, t), prio, flag)
  {
    forall i | 0 <= i < |Without(list, t)|
      ensures Without(list, t)[i] in prio
    {
      assert Without(list, t)[i] in list;
    }
    if flag.Prio? { WithoutSorted(list, t, prio); }
  }

  lemma NoneOrdered(prio: Priorities, flag: Flag)
    ensures Ordered([], prio, flag)
  {
  }

  lemma RestOrdered(list: seq<Tid>, prio: Priorities, flag: Flag)
    requires Ordered(list, prio, flag) && list != []
    ensures Ordered(list[1..], prio, flag)
    ensures flag.Prio? ==> forall x :: x in list ==> prio[list[0]] <= prio[x]
  {
  }
}
