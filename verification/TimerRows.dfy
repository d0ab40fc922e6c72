/**
 Rows of a skip list of timers, and the 32-bit comparison that orders them.

 The rows of the kernel's timer list are sequences of timer numbers.  What orders them is a timer's
 key: the tick of its timeout, counted without wrap-around, and then the order of starting.
 */
module TimerRows {
  import opened Lists

  // ----- wrapping ticks -----

  const TICK_RANGE: int := 0x1_0000_0000
  const RT_TICK_MAX: int := 0xFFFF_FFFF
  const HALF: int := RT_TICK_MAX / 2

  type Tick = t: int | 0 <= t < TICK_RANGE

  /** `a - b` in the kernel's unsigned arithmetic. */
  function Since(a: Tick, b: Tick): (d: Tick) {
    (a - b) % TICK_RANGE
  }

  function Wrap(n: nat): (t: Tick) {
    n % TICK_RANGE
  }

  /** For ticks no more than half the range apart, wrapped subtraction tells their true order. */
  lemma WrappedOrder(a: nat, b: nat)
    requires -HALF <= a - b < HALF
    ensures a == b <==> Since(Wrap(a), Wrap(b)) == 0
    ensures a > b <==> 0 < Since(Wrap(a), Wrap(b)) < HALF
    ensures a < b <==> Since(Wrap(a), Wrap(b)) > HALF
  {
    var d := a - b;
    assert Since(Wrap(a), Wrap(b)) == d % TICK_RANGE by { SubtractWrapped(a, b); }
    if d >= 0 {
      assert d % TICK_RANGE == d;
    } else {
      assert d % TICK_RANGE == d + TICK_RANGE;
    }
  }

  lemma SubtractWrapped(a: nat, b: nat)
    ensures (a % TICK_RANGE - b % TICK_RANGE) % TICK_RANGE == (a - b) % TICK_RANGE
  {
    var qa, qb := a / TICK_RANGE, b / TICK_RANGE;
    var x := a % TICK_RANGE - b % TICK_RANGE;
    assert a - b == x + (qa - qb) * TICK_RANGE;
    if x >= 0 {
      assert x % TICK_RANGE == x;
      assert (x + (qa - qb) * TICK_RANGE) % TICK_RANGE == x;
    } else {
      assert x % TICK_RANGE == x + TICK_RANGE;
      assert (x + (qa - qb) * TICK_RANGE) % TICK_RANGE == x + TICK_RANGE;
    }
  }

  lemma AddWrapped(a: nat, d: nat)
    ensures (Wrap(a) + d) % TICK_RANGE == Wrap(a + d)
  {
    var q := a / TICK_RANGE;
    assert a + d == Wrap(a) + d + q * TICK_RANGE;
    assert (Wrap(a) + d + q * TICK_RANGE) % TICK_RANGE == (Wrap(a) + d) % TICK_RANGE;
  }

  // ----- rows -----

  type Id = nat

  /** When a timer is due, and when it was started among those due together. */
  datatype Key = Key(deadline: nat, stamp: nat)

  predicate Before(a: Key, b: Key) {
    a.deadline < b.deadline || (a.deadline == b.deadline && a.stamp < b.stamp)
  }

  ghost predicate Keyed(row: seq<Id>, keys: map<Id, Key>) {
    forall i :: 0 <= i < |row| ==> row[i] in keys
  }

  ghost predicate Sorted(row: seq<Id>, keys: map<Id, Key>) {
    && Keyed(row, keys)
    && forall i, j :: 0 <= i < j < |row| ==> Before(keys[row[i]], keys[row[j]])
  }

  ghost predicate Within(upper: seq<Id>, lower: seq<Id>) {
    forall x :: x in upper ==> x in lower
  }

  /** Every row is in order and its timers are all in the row below. */
  ghost predicate SkipList(rows: seq<seq<Id>>, keys: map<Id, Key>) {
    && (forall r :: 0 <= r < |rows| ==> Sorted(rows[r], keys))
    && (forall r :: 0 <= r < |rows| - 1 ==> Within(rows[r], rows[r + 1]))
  }

  /** `p` is where a timer with this key belongs: everything in front is before it, the rest after. */
  ghost predicate Place(row: seq<Id>, keys: map<Id, Key>, key: Key, p: nat)
    requires Keyed(row, keys)
  {
    && p <= |row|
    && (forall i :: 0 <= i < p ==> Before(keys[row[i]], key))
    && (forall i :: p <= i < |row| ==> Before(key, keys[row[i]]))
  }

  function Inserted(row: seq<Id>, p: nat, id: Id): (r: seq<Id>)
    requires p <= |row|
  {
    row[..p] + [id] + row[p..]
  }

  lemma {:induction false} WithoutSorted(row: seq<Id>, id: Id, keys: map<Id, Key>)
    requires Sorted(row, keys)
    ensures Sorted(Without(row, id), keys)
  {
    if row != [] {
      var rest := Without(row[1..], id);
      assert Sorted(row[1..], keys);
      WithoutSorted(row[1..], id, keys);
      if row[0] != id {
        forall j | 0 <= j < |rest|
          ensures Before(keys[row[0]], keys[rest[j]])
        {
          assert rest[j] in row[1..];
          var k :| 0 <= k < |row[1..]| && row[1..][k] == rest[j];
          assert row[k + 1] == rest[j];
        }
      }
    }
  }

  lemma SortedSame(row: seq<Id>, keys: map<Id, Key>, keys': map<Id, Key>)
    requires Sorted(row, keys)
    requires forall i :: 0 <= i < |row| ==> row[i] in keys' && keys'[row[i]] == keys[row[i]]
    ensures Sorted(row, keys')
  {
  }

  lemma InsertedAt(row: seq<Id>, p: nat, id: Id, r: seq<Id>)
    requires p <= |row| && r == Inserted(row, p, id)
    ensures |r| == |row| + 1
    ensures (forall i :: 0 <= i < p ==> r[i] == row[i]) && r[p] == id
    ensures forall i :: p < i < |r| ==> r[i] == row[i - 1]
    ensures forall x :: x in r <==> x in row || x == id
  {
    assert row == row[..p] + row[p..];
  }

  lemma InsertedSorted(row: seq<Id>, p: nat, id: Id, keys: map<Id, Key>)
    requires Sorted(row, keys) && id in keys && Place(row, keys, keys[id], p)
    ensures Sorted(Inserted(row, p, id), keys)
    ensures forall x :: x in Inserted(row, p, id) <==> x in row || x == id
  {
    hide Before, Inserted;
    var r := Inserted(row, p, id);
    InsertedAt(row, p, id, r);
    forall i, j | 0 <= i < j < |r|
      ensures Before(keys[r[i]], keys[r[j]])
    {
      if i == p { assert r[j] == row[j - 1]; }
      if j == p { assert r[i] == row[i]; }
    }
  }

  /** A timer's neighbours in an upper row enclose its place in the row below. */
  lemma PlaceBelow(upper: seq<Id>, lower: seq<Id>, keys: map<Id, Key>, key: Key, p: nat, q: nat)
    requires Sorted(upper, keys) && Sorted(lower, keys) && Within(upper, lower)
    requires Place(upper, keys, key, p) && p > 0
    requires q < |lower| && lower[q] == upper[p - 1]
    ensures forall i :: 0 <= i <= q ==> Before(keys[lower[i]], key)
  {
  }

  lemma FirstIn(row: seq<Id>)
    ensures row != [] ==> row[0] in row
  {
  }

  lemma InRowOrder(row: seq<Id>, keys: map<Id, Key>, i: nat, j: nat)
    requires Sorted(row, keys) && i < |row| && j < |row|
    ensures i < j ==> Before(keys[row[i]], keys[row[j]])
  {
  }

  /** There is only one way to put a set of timers in order. */
  lemma {:induction false} SortedUnique(a: seq<Id>, b: seq<Id>, keys: map<Id, Key>)
    requires Sorted(a, keys) && Sorted(b, keys)
    requires forall x :: x in a <==> x in b
    ensures a == b
  {
    if a == [] {
      FirstIn(b);
    } else {
      assert a[0] in b && b != [];
      assert b[0] in a;
      assert a[0] == b[0];
      forall x
        ensures x in a[1..] <==> x in b[1..]
      {
        InTail(a, keys, x);
        InTail(b, keys, x);
      }
      SortedUnique(a[1..], b[1..], keys);
    }
  }

  lemma InTail(a: seq<Id>, keys: map<Id, Key>, x: Id)
    requires Sorted(a, keys) && a != []
    ensures x in a[1..] <==> x in a && x != a[0]
  {
  }

  // ----- rows are subsequences of the rows below -----

  ghost predicate Increasing(f: seq<nat>) {
    forall i, j :: 0 <= i < j < |f| ==> f[i] < f[j]
  }

  /** `f` picks the elements of `upper` out of `lower` in order. */
  ghost predicate Embeds(f: seq<nat>, upper: seq<Id>, lower: seq<Id>) {
    && |f| == |upper|
    && Increasing(f)
    && forall i :: 0 <= i < |f| ==> f[i] < |lower| && lower[f[i]] == upper[i]
  }

  function IndexOf(row: seq<Id>, id: Id): (p: nat)
    requires id in row
    ensures p < |row| && row[p] == id
  {
    if row[0] == id then 0 else 1 + IndexOf(row[1..], id)
  }

  lemma SubsequenceBelow(upper: seq<Id>, lower: seq<Id>, keys: map<Id, Key>) returns (f: seq<nat>)
    requires Sorted(upper, keys) && Sorted(lower, keys) && Within(upper, lower)
    ensures Embeds(f, upper, lower)
  {
    f := seq(|upper|, i requires 0 <= i < |upper| => IndexOf(lower, upper[i]));
    forall i, j | 0 <= i < j < |f|
      ensures f[i] < f[j]
    {
      assert Before(keys[upper[i]], keys[upper[j]]);
      InRowOrder(lower, keys, f[j], f[i]);
    }
  }
}
