/**
 Whose turn it is: in every run, a waiting list is in order of urgency and, among equally urgent threads, of
 arrival; lists that go by arrival take all threads for equally urgent.
 */
module WaitOrder {
  import opened Lists
  import opened WaitList

  ghost function Rank(t: Tid, prio: Priorities, flag: Flag): (r: int) {
    if flag.Prio? && t in prio then prio[t] else 0
  }

  /** `a` stands somewhere in front of `b`. */
  ghost predicate Precedes(list: seq<Tid>, a: Tid, b: Tid) {
    exists i, j :: 0 <= i < j < |list| && list[i] == a && list[j] == b
  }

  /** How one thread of the new list may stand in front of another: as before, or the newcomer behind its equals. */
  ghost predicate InPlace(list: seq<Tid>, a: Tid, b: Tid, prio: Priorities, flag: Flag) {
    if a in list then
      if b in list then Precedes(list, a, b) else Rank(a, prio, flag) <= Rank(b, prio, flag)
    else
      b in list && Rank(a, prio, flag) < Rank(b, prio, flag)
  }

  /** From one list to the next, threads may leave and one may join; nobody overtakes. */
  ghost predicate NobodyOvertakes(list: seq<Tid>, list': seq<Tid>, prio: Priorities, flag: Flag) {
    forall i, j :: 0 <= i < j < |list'| ==> InPlace(list, list'[i], list'[j], prio, flag)
  }

  ghost predicate Undisturbed(lists: seq<seq<Tid>>, prio: Priorities, flag: Flag) {
    forall k :: 0 <= k < |lists| - 1 ==> NobodyOvertakes(lists[k], lists[k + 1], prio, flag)
  }

  /** The first of the lists from which on the thread has been on all of them, up to number `i`. */
  ghost function Since(lists: seq<seq<Tid>>, i: nat, t: Tid): (k: nat)
    requires i < |lists|
    ensures k <= i
    ensures t in lists[i] ==> forall j :: k <= j <= i ==> t in lists[j]
    ensures k == 0 || t !in lists[k - 1]
  {
    if i == 0 || t !in lists[i - 1] then i else Since(lists, i - 1, t)
  }

  /** `a` is more urgent than `b`, or as urgent and waiting for longer, or both have been there from the start. */
  ghost predicate Ahead(lists: seq<seq<Tid>>, i: nat, a: Tid, b: Tid, prio: Priorities, flag: Flag)
    requires i < |lists|
  {
    || Rank(a, prio, flag) < Rank(b, prio, flag)
    || (&& Rank(a, prio, flag) == Rank(b, prio, flag)
        && (|| Since(lists, i, a) < Since(lists, i, b)
            || (Since(lists, i, a) == Since(lists, i, b) == 0 && Precedes(lists[0], a, b))))
  }

  /** Whoever stands in front of another is ahead of it. */
  lemma {:induction false} FrontIsAhead(lists: seq<seq<Tid>>, i: nat, a: Tid, b: Tid, prio: Priorities, flag: Flag)
    requires i < |lists| && Undisturbed(lists, prio, flag) && Ordered(lists[0], prio, flag)
    requires Precedes(lists[i], a, b)
    ensures Ahead(lists, i, a, b, prio, flag)
  {
    var p, q :| 0 <= p < q < |lists[i]| && lists[i][p] == a && lists[i][q] == b;
    if i > 0 {
      assert NobodyOvertakes(lists[i - 1], lists[i], prio, flag);
      assert InPlace(lists[i - 1], lists[i][p], lists[i][q], prio, flag);
      if a in lists[i - 1] && b in lists[i - 1] { FrontIsAhead(lists, i - 1, a, b, prio, flag); }
    }
  }

  // ----- what happens to a waiting list -----

  lemma StaysInPlace(list: seq<Tid>, prio: Priorities, flag: Flag)
    ensures NobodyOvertakes(list, list, prio, flag)
  {
  }

  lemma FirstGoes(list: seq<Tid>, prio: Priorities, flag: Flag)
    requires list != []
    ensures NobodyOvertakes(list, list[1..], prio, flag)
    ensures forall x :: x in list[1..] ==> Precedes(list, list[0], x)
  {
    forall i, j | 0 <= i < j < |list[1..]|
      ensures InPlace(list, list[1..][i], list[1..][j], prio, flag)
    {
      assert list[i + 1] == list[1..][i] && list[j + 1] == list[1..][j];
    }
    forall x | x in list[1..]
      ensures Precedes(list, list[0], x)
    {
      FirstPrecedes(list, x);
    }
  }

  lemma AllGo(list: seq<Tid>, prio: Priorities, flag: Flag)
    ensures NobodyOvertakes(list, [], prio, flag)
  {
  }

  lemma OneGoes(list: seq<Tid>, t: Tid, prio: Priorities, flag: Flag)
    ensures NobodyOvertakes(list, Without(list, t), prio, flag)
  {
    var r := Without(list, t);
    forall i, j | 0 <= i < j < |r|
      ensures InPlace(list, r[i], r[j], prio, flag)
    {
      WithoutInOrder(list, t, i, j);
      assert r[i] in r && r[j] in r;
    }
  }

  lemma {:induction false} WithoutInOrder(list: seq<Tid>, t: Tid, i: nat, j: nat)
    requires i < j < |Without(list, t)|
    ensures Precedes(list, Without(list, t)[i], Without(list, t)[j])
  {
    var rest := Without(list[1..], t);
    if list[0] == t {
      WithoutInOrder(list[1..], t, i, j);
      PrecedesBehind(list, rest[i], rest[j]);
    } else if i > 0 {
      WithoutInOrder(list[1..], t, i - 1, j - 1);
      PrecedesBehind(list, rest[i - 1], rest[j - 1]);
    } else {
      assert rest[j - 1] in rest && rest[j - 1] in list[1..];
      var k :| 0 <= k < |list[1..]| && list[1..][k] == rest[j - 1];
      assert list[k + 1] == rest[j - 1] && list[0] == Without(list, t)[0];
    }
  }

  lemma PrecedesBehind(list: seq<Tid>, a: Tid, b: Tid)
    requires list != [] && Precedes(list[1..], a, b)
    ensures Precedes(list, a, b)
  {
    var i, j :| 0 <= i < j < |list[1..]| && list[1..][i] == a && list[1..][j] == b;
    assert list[i + 1] == a && list[j + 1] == b;
  }

  /** Some threads of a list, in its order. */
  ghost predicate SomeOf(list: seq<Tid>, some: seq<Tid>) {
    && (forall t :: t in some ==> t in list)
    && forall i, j :: 0 <= i < j < |some| ==> Precedes(list, some[i], some[j])
  }

  lemma NoneOf(list: seq<Tid>)
    ensures SomeOf(list, [])
  {
  }

  lemma SomeBehind(list: seq<Tid>, some: seq<Tid>)
    requires list != [] && SomeOf(list[1..], some)
    ensures SomeOf(list, some) && SomeOf(list, [list[0]] + some)
  {
    hide Precedes;
    forall i, j | 0 <= i < j < |some|
      ensures Precedes(list, some[i], some[j])
    {
      PrecedesBehind(list, some[i], some[j]);
    }
    var more := [list[0]] + some;
    forall i, j | 0 <= i < j < |more|
      ensures Precedes(list, more[i], more[j])
    {
      if i == 0 {
        assert more[j] == some[j - 1] && some[j - 1] in list[1..];
        FirstPrecedes(list, more[j]);
      } else {
        assert more[i] == some[i - 1] && more[j] == some[j - 1];
      }
    }
  }

  lemma FirstPrecedes(list: seq<Tid>, x: Tid)
    requires list != [] && x in list[1..]
    ensures Precedes(list, list[0], x)
  {
    var j :| 0 <= j < |list[1..]| && list[1..][j] == x;
    assert list[j + 1] == x;
  }

  lemma SomeStay(list: seq<Tid>, some: seq<Tid>, prio: Priorities, flag: Flag)
    requires SomeOf(list, some)
    ensures NobodyOvertakes(list, some, prio, flag)
  {
    forall i, j | 0 <= i < j < |some|
      ensures InPlace(list, some[i], some[j], prio, flag)
    {
      assert some[i] in some && some[j] in some && Precedes(list, some[i], some[j]);
    }
  }

  lemma SomeOrdered(list: seq<Tid>, some: seq<Tid>, prio: Priorities, flag: Flag)
    requires SomeOf(list, some) && Ordered(list, prio, flag)
    ensures Ordered(some, prio, flag)
  {
    forall i | 0 <= i < |some|
      ensures some[i] in prio
    {
      var t := some[i];
      assert t in some;
      assert t in list;
    }
    forall i, j | 0 <= i < j < |some|
      ensures flag.Prio? ==> prio[some[i]] <= prio[some[j]]
    {
      assert Precedes(list, some[i], some[j]);
      var p, q :| 0 <= p < q < |list| && list[p] == some[i] && list[q] == some[j];
    }
  }

  lemma OneJoins(list: seq<Tid>, t: Tid, prio: Priorities, flag: Flag)
    requires Ordered(list, prio, flag) && t in prio && t !in list
    ensures NobodyOvertakes(list, Suspended(list, t, prio, flag), prio, flag)
  {
    var r, p := Suspended(list, t, prio, flag), Place(list, t, prio, flag);
    if flag.Fifo? { SuspendedLast(list, t, prio); } else { PlaceByPriority(list, t, prio); }
    assert flag.Fifo? ==> p == |list|;
    SuspendedAt(list, t, prio, flag);
    hide Suspended, Place;
    forall i, j | 0 <= i < j < |r|
      ensures InPlace(list, r[i], r[j], prio, flag)
    {
      if i < p { assert r[i] == list[i] && r[i] in list; }
      if i > p { assert r[i] == list[i - 1] && r[i] in list; }
      if j < p { assert r[j] == list[j] && r[j] in list; }
      if j > p { assert r[j] == list[j - 1] && r[j] in list; }
    }
  }

  /** Only the ranks of those concerned matter. */
  lemma SameRanks(list: seq<Tid>, list': seq<Tid>, prio: Priorities, prio': Priorities, flag: Flag)
    requires NobodyOvertakes(list, list', prio, flag)
    requires forall t :: t in list' ==> Rank(t, prio', flag) == Rank(t, prio, flag)
    ensures NobodyOvertakes(list, list', prio', flag)
  {
    hide Rank;
    forall i, j | 0 <= i < j < |list'|
      ensures InPlace(list, list'[i], list'[j], prio', flag)
    {
      assert list'[i] in list' && list'[j] in list' && InPlace(list, list'[i], list'[j], prio, flag);
    }
  }

  lemma SuspendedAt(list: seq<Tid>, t: Tid, prio: Priorities, flag: Flag)
    requires Known(list, prio) && t in prio
    ensures var r, p := Suspended(list, t, prio, flag), Place(list, t, prio, flag);
            && |r| == |list| + 1 && p <= |list| && r[p] == t
            && (forall i :: 0 <= i < p ==> r[i] == list[i]) && (forall i :: p < i < |r| ==> r[i] == list[i - 1])
  {
  }
}
