/** The intrusive doubly linked list: nodes in a ring around a list head. */
module RingList {
  import opened Lists

  type Links = map<int, int>

  ghost predicate Linked(next: Links, prev: Links, a: int, b: int) {
    a in next && next[a] == b && b in prev && prev[b] == a
  }

  /** The node in front of position `k` of the list; the head is in front of the first. */
  ghost function Before(head: int, list: seq<int>, k: int): (n: int)
    requires 0 <= k <= |list|
  {
    if k == 0 then head else list[k - 1]
  }

  /** The node at position `k` of the list; the head is behind the last. */
  ghost function At(head: int, list: seq<int>, k: int): (n: int)
    requires 0 <= k <= |list|
  {
    if k == |list| then head else list[k]
  }

  /** Following `next` or `prev` from the head leads through the list and back. */
  ghost predicate Ring(next: Links, prev: Links, head: int, list: seq<int>) {
    && head !in list && Distinct(list)
    && forall k :: 0 <= k <= |list| ==> Linked(next, prev, Before(head, list, k), At(head, list, k))
  }

  ghost function Inserted(list: seq<int>, k: int, n: int): (r: seq<int>)
    requires 0 <= k <= |list|
  {
    list[..k] + [n] + list[k..]
  }

  function Removed(list: seq<int>, k: int): (r: seq<int>)
    requires 0 <= k < |list|
  {
    list[..k] + list[k + 1..]
  }

  lemma {:induction false} RemovedIsWithout(list: seq<int>, k: int)
    requires Distinct(list) && 0 <= k < |list|
    ensures Removed(list, k) == Without(list, list[k])
  {
    if k == 0 {
      WithoutFirst(list);
    } else {
      var rest := list[1..];
      RemovedIsWithout(rest, k - 1);
      assert rest[k - 1] == list[k] && Removed(list, k) == [list[0]] + Removed(rest, k - 1);
    }
  }

  /** rt_list_insert_after: the four link updates put a node behind another. */
  lemma InsertAfter(next: Links, prev: Links, head: int, list: seq<int>, k: int, n: int)
    requires Ring(next, prev, head, list) && 0 <= k <= |list| && n != head && n !in list
    ensures var l := Before(head, list, k);
            && l in next && next[l] == At(head, list, k)
            && Ring(next[n := next[l]][l := n], prev[next[l] := n][n := l], head, Inserted(list, k, n))
  {
    var l := Before(head, list, k);
    assert Linked(next, prev, l, At(head, list, k));
    var next', prev', r := next[n := next[l]][l := n], prev[next[l] := n][n := l], Inserted(list, k, n);
    forall j | 0 <= j <= |r|
      ensures Linked(next', prev', Before(head, r, j), At(head, r, j))
    {
      if j < k {
        assert Linked(next, prev, Before(head, list, j), At(head, list, j));
      } else if j > k + 1 {
        assert Linked(next, prev, Before(head, list, j - 1), At(head, list, j - 1));
      }
    }
  }

  /** The first two link updates of rt_list_remove take a node out. */
  lemma Remove(next: Links, prev: Links, head: int, list: seq<int>, k: int)
    requires Ring(next, prev, head, list) && 0 <= k < |list|
    ensures var n := list[k];
            && n in next && n in prev && next[n] == At(head, list, k + 1) && prev[n] == Before(head, list, k)
            && Ring(next[prev[n] := next[n]], prev[next[n] := prev[n]], head, Removed(list, k))
  {
    var n := list[k];
    assert Linked(next, prev, Before(head, list, k), n);
    assert Linked(next, prev, n, At(head, list, k + 1));
    var next', prev', r := next[prev[n] := next[n]], prev[next[n] := prev[n]], Removed(list, k);
    forall j | 0 <= j <= |r|
      ensures Linked(next', prev', Before(head, r, j), At(head, r, j))
    {
      if j < k {
        assert Linked(next, prev, Before(head, list, j), At(head, list, j));
      } else if j > k {
        assert Linked(next, prev, Before(head, list, j + 1), At(head, list, j + 1));
      }
    }
  }

  /** The links of a node outside the ring do not matter. */
  lemma Outside(next: Links, prev: Links, head: int, list: seq<int>, n: int, x: int, y: int)
    requires Ring(next, prev, head, list) && n != head && n !in list
    ensures Ring(next[n := x], prev[n := y], head, list)
  {
    forall j | 0 <= j <= |list|
      ensures Linked(next[n := x], prev[n := y], Before(head, list, j), At(head, list, j))
    {
      assert Linked(next, prev, Before(head, list, j), At(head, list, j));
    }
  }

  /** A node of the ring, and the head, has neighbours in the ring. */
  lemma RingNeighbours(next: Links, prev: Links, head: int, list: seq<int>, n: int)
    requires Ring(next, prev, head, list) && (n == head || n in list)
    ensures n in next && n in prev && (next[n] == head || next[n] in list) && (prev[n] == head || prev[n] in list)
  {
    if n == head {
      assert Linked(next, prev, Before(head, list, 0), At(head, list, 0));
      assert Linked(next, prev, Before(head, list, |list|), At(head, list, |list|));
    } else {
      var k :| 0 <= k < |list| && list[k] == n;
      assert Linked(next, prev, Before(head, list, k), At(head, list, k));
      assert Linked(next, prev, Before(head, list, k + 1), At(head, list, k + 1));
    }
  }

  /** All of rt_list_remove: the node is out of the ring, and a ring of its own. */
  lemma RemoveAll(next: Links, prev: Links, head: int, list: seq<int>, k: int)
    requires Ring(next, prev, head, list) && 0 <= k < |list|
    ensures var n := list[k];
            && n in next && n in prev
            && var next', prev' := next[prev[n] := next[n]][n := n], prev[next[n] := prev[n]][n := n];
               Ring(next', prev', head, Removed(list, k)) && Ring(next', prev', n, [])
  {
    var n := list[k];
    Remove(next, prev, head, list, k);
    assert n !in Removed(list, k);
    Outside(next[prev[n] := next[n]], prev[next[n] := prev[n]], head, Removed(list, k), n, n, n);
  }
}
