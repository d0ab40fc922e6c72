/**
 The kernel's timer list: starting, stopping and expiring timers on a skip list of any height.

 The code only ever sees wrapped 32-bit ticks.  The ghost fields count time and starts without
 wrap-around, and the class invariant says that the rows are in that true order.
 */
module Timers {
  import opened Lists
  import opened TimerCalls
  import opened TimerRows
  import Ends = TimerEnds
  import Spec = TimerSpec

  function RemovedRows(rows: seq<seq<Id>>, id: Id): (r: seq<seq<Id>>) {
    seq(|rows|, i requires 0 <= i < |rows| => Without(rows[i], id))
  }

  lemma RemovedSkipList(rows: seq<seq<Id>>, id: Id, keys: map<Id, Key>)
    requires SkipList(rows, keys)
    ensures SkipList(RemovedRows(rows, id), keys)
  {
    var r := RemovedRows(rows, id);
    forall i | 0 <= i < |r|
      ensures Sorted(r[i], keys)
    {
      WithoutSorted(rows[i], id, keys);
    }
    forall i | 0 <= i < |r| - 1
      ensures Within(r[i], r[i + 1])
    {
      assert Within(rows[i], rows[i + 1]);
    }
  }

  /** Every timer of a skip list is in its bottom row. */
  lemma {:induction false} InBottomRow(rows: seq<seq<Id>>, keys: map<Id, Key>, r: nat, id: Id)
    requires SkipList(rows, keys) && r < |rows| && id in rows[r]
    ensures id in rows[|rows| - 1]
    decreases |rows| - r
  {
    if r < |rows| - 1 {
      assert Within(rows[r], rows[r + 1]);
      InBottomRow(rows, keys, r + 1, id);
    }
  }

  /** What some calls have done to timer `x`: started it now, stopped it, or left it as it was. */
  ghost predicate Effect(calls: seq<Call>, x: Id, row: seq<Id>, keys: map<Id, Key>, started: nat,
                         row': seq<Id>, keys': map<Id, Key>, timers': map<Id, Timer>, now: nat) {
    && (EndsStarted(calls, x) ==>
          && x in row' && x in keys' && x in timers' && timers'[x].activated
          && keys'[x].deadline == now + timers'[x].initTick && keys'[x].stamp >= started)
    && (!EndsStarted(calls, x) && x in row' ==> x in row && x in keys && x in keys' && keys'[x] == keys[x])
    && (!Concerns(calls, x) ==> (x in row' <==> x in row))
  }

  ghost predicate Effects(calls: seq<Call>, row: seq<Id>, keys: map<Id, Key>, started: nat,
                          row': seq<Id>, keys': map<Id, Key>, timers': map<Id, Timer>, now: nat) {
    forall x :: Effect(calls, x, row, keys, started, row', keys', timers', now)
  }

  lemma NoEffect(row: seq<Id>, keys: map<Id, Key>, started: nat, timers: map<Id, Timer>, now: nat)
    requires forall x :: x in row ==> x in keys
    ensures Effects([], row, keys, started, row, keys, timers, now)
  {
  }

  /** What one call does to rows, keys and flags. */
  ghost predicate CallChange(c: Call, row: seq<Id>, keys: map<Id, Key>, started: nat, timers: map<Id, Timer>,
                             row': seq<Id>, keys': map<Id, Key>, timers': map<Id, Timer>, now: nat)
  {
    && c.id in timers && timers'.Keys == timers.Keys
    && (forall x :: x in timers && x != c.id ==> timers'[x] == timers[x])
    && (forall x :: x in row' && x != c.id <==> x in row && x != c.id)
    && (forall x :: x in keys && x != c.id ==> x in keys' && keys'[x] == keys[x])
    && (forall x :: x in row ==> x in keys)
    && (c.StartCall? ==>
          && c.id in row' && c.id in keys' && timers'[c.id].activated
          && keys'[c.id] == Key(now + timers'[c.id].initTick, started))
    && (c.StopCall? ==>
          && (timers[c.id].activated ==> c.id !in row')
          && (c.id in row' ==> c.id in row && c.id in keys' && keys'[c.id] == keys[c.id]))
  }

  lemma StartChanges(id: Id, row: seq<Id>, keys: map<Id, Key>, started: nat, timers: map<Id, Timer>,
                     row': seq<Id>, keys': map<Id, Key>, timers': map<Id, Timer>, now: nat, timeout: Tick)
    requires id in timers && timers' == timers[id := timers[id].(timeoutTick := timeout, activated := true)]
    requires keys' == keys[id := Key(now + timers[id].initTick, started)]
    requires forall x :: x in row' <==> x in row || x == id
    requires forall x :: x in row ==> x in keys
    ensures CallChange(StartCall(id), row, keys, started, timers, row', keys', timers', now)
  {
  }

  lemma StopChanges(id: Id, row: seq<Id>, keys: map<Id, Key>, started: nat, timers: map<Id, Timer>,
                    row': seq<Id>, timers': map<Id, Timer>, now: nat)
    requires id in timers && timers' == timers[id := timers[id].(activated := false)]
    requires if timers[id].activated then forall x :: x in row' <==> x in row && x != id else row' == row
    requires forall x :: x in row ==> x in keys
    ensures CallChange(StopCall(id), row, keys, started, timers, row', keys, timers', now)
  {
  }

  /** What settling a timer after its timeout function does to rows, keys and flags. */
  ghost predicate SettleChange(t: Id, row: seq<Id>, keys: map<Id, Key>, timers: map<Id, Timer>,
                               row': seq<Id>, keys': map<Id, Key>, timers': map<Id, Timer>, now: nat) {
    && t in timers && timers'.Keys == timers.Keys && (t in row' ==> t in keys')
    && (forall x :: x != t ==> (x in row' <==> x in row))
    && (!timers'[t].periodic ==> !timers'[t].activated && (t in row' <==> t in row) && keys' == keys)
    && (forall x :: x in keys && x != t ==> x in keys' && keys'[x] == keys[x])
    && (forall x :: x in timers && x != t ==> timers'[x] == timers[x])
    && (timers'[t].periodic && t in row' ==> keys'[t].deadline == now + timers'[t].initTick)
  }

  lemma SettledIs(t: Id, again: bool, row: seq<Id>, keys: map<Id, Key>, timers: map<Id, Timer>,
                  row': seq<Id>, keys': map<Id, Key>, timers': map<Id, Timer>, now: nat)
    requires t in timers && t in timers' && timers' == timers[t := timers'[t]]
    requires timers'[t].periodic == timers[t].periodic && timers'[t].initTick == timers[t].initTick
    requires again == (timers[t].periodic && timers[t].activated) && timers'[t].activated == again
    requires t in row ==> t in keys && timers[t].activated
    requires if again then (forall x :: x in row' <==> x in row || x == t) else row' == row
    requires if again then t in keys' && keys' == keys[t := keys'[t]] && keys'[t].deadline == now + timers[t].initTick
             else keys' == keys
    ensures SettleChange(t, row, keys, timers, row', keys', timers', now)
  {
  }

  /** A start sets the flag whether it was set or not. */
  lemma StartedAnyway(p: Spec.Plan, t: Id, kinds: Kinds)
    ensures Spec.Started(p.(active := p.active - {t}), t, kinds) == Spec.Started(p, t, kinds)
  {
    hide Spec.Off, Spec.Placed;
    assert p.active - {t} + {t} == p.active + {t};
  }

  lemma KindOf(timers: map<Id, Timer>, kinds: Kinds, t: Id)
    requires OfKinds(timers, kinds) && t in timers
    ensures t in kinds && kinds[t].periodic == timers[t].periodic && kinds[t].initTick == timers[t].initTick
  {
    assert t in timers.Keys;
  }

  /** Calls and settling together, for a timer other than the one that expires. */
  lemma EffectSettled(calls: seq<Call>, x: Id, t: Id, row: seq<Id>, rest: seq<Id>, keys: map<Id, Key>, started: nat,
                      row1: seq<Id>, keys1: map<Id, Key>, timers1: map<Id, Timer>,
                      row2: seq<Id>, keys2: map<Id, Key>, timers2: map<Id, Timer>, now: nat)
    requires Effects(calls, rest, keys, started, row1, keys1, timers1, now) && x != t && (x in rest <==> x in row)
    requires SettleChange(t, row1, keys1, timers1, row2, keys2, timers2, now)
    requires forall y :: y in row1 ==> y in keys1
    ensures Effect(calls, x, row, keys, started, row2, keys2, timers2, now)
  {
    assert Effect(calls, x, rest, keys, started, row1, keys1, timers1, now);
  }

  /** Calls and settling together, for the timer that expires. */
  lemma SelfSettled(calls: seq<Call>, t: Id, rest: seq<Id>, keys: map<Id, Key>, started: nat,
                    row1: seq<Id>, keys1: map<Id, Key>, timers1: map<Id, Timer>,
                    row2: seq<Id>, keys2: map<Id, Key>, timers2: map<Id, Timer>, now: nat)
    requires Effects(calls, rest, keys, started, row1, keys1, timers1, now) && t !in rest
    requires SettleChange(t, row1, keys1, timers1, row2, keys2, timers2, now) && SameKinds(timers1, timers2)
    ensures !timers2[t].periodic ==> !timers2[t].activated && (t in row2 <==> t in row1)
    ensures t in row2 ==> keys2[t].deadline == now + timers2[t].initTick
  {
    assert Effect(calls, t, rest, keys, started, row1, keys1, timers1, now);
  }

  /** One more call. */
  lemma EffectMore(calls: seq<Call>, c: Call, row: seq<Id>, keys: map<Id, Key>, started: nat,
                   row1: seq<Id>, keys1: map<Id, Key>, timers1: map<Id, Timer>, started1: nat,
                   row2: seq<Id>, keys2: map<Id, Key>, timers2: map<Id, Timer>, now: nat)
    requires Effects(calls, row, keys, started, row1, keys1, timers1, now) && started <= started1
    requires CallChange(c, row1, keys1, started1, timers1, row2, keys2, timers2, now)
    ensures Effects(calls + [c], row, keys, started, row2, keys2, timers2, now)
  {
    var more := calls + [c];
    assert more[|more| - 1] == c && more[..|more| - 1] == calls;
    forall x
      ensures Effect(more, x, row, keys, started, row2, keys2, timers2, now)
    {
      assert Effect(calls, x, row, keys, started, row1, keys1, timers1, now);
    }
  }

  /** The timers are what they are set to be. */
  ghost predicate OfKinds(timers: map<Id, Timer>, kinds: Kinds) {
    && timers.Keys == kinds.Keys
    && forall id :: id in timers ==>
         timers[id].periodic == kinds[id].periodic && timers[id].initTick == kinds[id].initTick
  }

  lemma KindsSame(timers: map<Id, Timer>, timers': map<Id, Timer>, kinds: Kinds)
    requires OfKinds(timers, kinds) && OfKinds(timers', kinds)
    ensures SameKinds(timers, timers')
  {
  }

  // ----- the rows and the list they stand for -----

  ghost function EntriesOf(row: seq<Id>, keys: map<Id, Key>): (es: seq<Spec.Entry>)
    requires Keyed(row, keys)
  {
    seq(|row|, i requires 0 <= i < |row| => Spec.Entry(row[i], keys[row[i]].deadline))
  }

  ghost function Active(timers: map<Id, Timer>): (ids: set<Id>) {
    set id | id in timers && timers[id].activated
  }

  lemma SortedRest(row: seq<Id>, keys: map<Id, Key>)
    requires Sorted(row, keys) && row != []
    ensures Sorted(row[1..], keys)
  {
  }

  lemma {:induction false} EntriesOff(row: seq<Id>, id: Id, keys: map<Id, Key>)
    requires Sorted(row, keys)
    ensures Sorted(Without(row, id), keys)
    ensures EntriesOf(Without(row, id), keys) == Spec.Off(EntriesOf(row, keys), id)
  {
    hide Sorted, EntriesOf;
    WithoutSorted(row, id, keys);
    if row == [] {
      EntriesCons(row, keys);
    } else {
      SortedRest(row, keys);
      EntriesOff(row[1..], id, keys);
      EntriesCons(row, keys);
      EntriesCons(Without(row, id), keys);
      if row[0] != id { assert Without(row, id)[1..] == Without(row[1..], id); }
    }
  }

  lemma EntriesCons(row: seq<Id>, keys: map<Id, Key>)
    requires Sorted(row, keys)
    ensures |EntriesOf(row, keys)| == |row|
    ensures row != [] ==>
              && Keyed(row[1..], keys) && EntriesOf(row, keys)[1..] == EntriesOf(row[1..], keys)
              && EntriesOf(row, keys)[0] == Spec.Entry(row[0], keys[row[0]].deadline)
  {
  }

  /** A row without one of its timers stands for the list without it. */
  lemma RowOff(row: seq<Id>, row': seq<Id>, id: Id, keys: map<Id, Key>)
    requires Sorted(row, keys) && Sorted(row', keys) && forall x :: x in row' <==> x in row && x != id
    ensures EntriesOf(row', keys) == Spec.Off(EntriesOf(row, keys), id)
  {
    EntriesOff(row, id, keys);
    SortedUnique(row', Without(row, id), keys);
  }

  /** A row with a timer that was started last stands for the list with it behind all that are due no later. */
  lemma RowPlaced(row: seq<Id>, row': seq<Id>, id: Id, keys: map<Id, Key>)
    requires Sorted(row, keys) && Sorted(row', keys) && id !in row && forall x :: x in row' <==> x in row || x == id
    requires id in keys && forall x :: x in row ==> x in keys && keys[x].stamp < keys[id].stamp
    ensures EntriesOf(row', keys) == Spec.Placed(EntriesOf(row, keys), Spec.Entry(id, keys[id].deadline))
  {
    hide Sorted, Place, Spec.PlaceOf;
    var es, key := EntriesOf(row, keys), keys[id];
    var p := Spec.PlaceOf(es, key.deadline);
    PlaceAgrees(row, id, keys);
    InsertedSorted(row, p, id, keys);
    SortedUnique(row', Inserted(row, p, id), keys);
    assert EntriesOf(Inserted(row, p, id), keys) == es[..p] + [Spec.Entry(id, key.deadline)] + es[p..];
  }

  /** Behind all that are due no later is the place by deadline and start. */
  lemma PlaceAgrees(row: seq<Id>, id: Id, keys: map<Id, Key>)
    requires Sorted(row, keys)
    requires id in keys && forall x :: x in row ==> x in keys && keys[x].stamp < keys[id].stamp
    ensures Place(row, keys, keys[id], Spec.PlaceOf(EntriesOf(row, keys), keys[id].deadline))
  {
    var es, key := EntriesOf(row, keys), keys[id];
    var p := Spec.PlaceOf(es, key.deadline);
    hide Spec.PlaceOf;
    forall i | 0 <= i < |row|
      ensures if i < p then Before(keys[row[i]], key) else Before(key, keys[row[i]])
    {
      assert row[i] in row && es[i].deadline == keys[row[i]].deadline;
      if p < i { assert Before(keys[row[p]], keys[row[i]]) && es[p].deadline == keys[row[p]].deadline; }
    }
  }

  lemma EntriesSame(row: seq<Id>, keys: map<Id, Key>, keys': map<Id, Key>)
    requires Keyed(row, keys) && Keyed(row, keys')
    requires forall x :: x in row ==> x in keys && x in keys' && keys'[x] == keys[x]
    ensures EntriesOf(row, keys') == EntriesOf(row, keys)
  {
    assert forall i :: 0 <= i < |row| ==> row[i] in row;
  }

  /** What rt_timer_start does to the list. */
  lemma RowStarted(row: seq<Id>, row': seq<Id>, id: Id, keys: map<Id, Key>, keys': map<Id, Key>)
    requires Sorted(row, keys) && Sorted(row', keys') && forall x :: x in row' <==> x in row || x == id
    requires id in keys' && keys' == keys[id := keys'[id]]
    requires forall x :: x in row ==> x in keys && keys[x].stamp < keys'[id].stamp
    ensures EntriesOf(row', keys') ==
              Spec.Placed(Spec.Off(EntriesOf(row, keys), id), Spec.Entry(id, keys'[id].deadline))
  {
    var rest := Without(row, id);
    EntriesOff(row, id, keys);
    assert forall i :: 0 <= i < |rest| ==> rest[i] in rest;
    SortedSame(rest, keys, keys');
    EntriesSame(rest, keys, keys');
    RowPlaced(rest, row', id, keys');
  }

  lemma ActiveOn(timers: map<Id, Timer>, id: Id, timer: Timer)
    requires id in timers && timer.activated
    ensures Active(timers[id := timer]) == Active(timers) + {id}
  {
  }

  lemma ActiveIs(timers: map<Id, Timer>, id: Id)
    ensures id in Active(timers) <==> id in timers && timers[id].activated
  {
  }

  lemma ActiveOff(timers: map<Id, Timer>, id: Id, timer: Timer)
    requires id in timers && !timer.activated
    ensures Active(timers[id := timer]) == Active(timers) - {id}
  {
  }

  lemma StartPlan(row: seq<Id>, row': seq<Id>, id: Id, keys: map<Id, Key>, keys': map<Id, Key>,
                  timers: map<Id, Timer>, timers': map<Id, Timer>, kinds: Kinds, now: nat)
    requires Sorted(row, keys) && Sorted(row', keys') && forall x :: x in row' <==> x in row || x == id
    requires OfKinds(timers, kinds) && id in timers && id in timers' && timers' == timers[id := timers'[id]]
    requires timers'[id].activated && id in keys' && keys' == keys[id := keys'[id]]
    requires keys'[id].deadline == now + timers[id].initTick
    requires forall x :: x in row ==> x in keys && keys[x].stamp < keys'[id].stamp
    ensures Spec.Plan(EntriesOf(row', keys'), Active(timers'), now) ==
              Spec.Started(Spec.Plan(EntriesOf(row, keys), Active(timers), now), id, kinds)
  {
    RowStarted(row, row', id, keys, keys');
    ActiveOn(timers, id, timers'[id]);
    assert id in timers.Keys;
    hide Sorted, EntriesOf, Active, Spec.Off, Spec.Placed;
  }

  lemma NoCallsYet(p: Spec.Plan, kinds: Kinds)
    ensures Spec.CalledAll(p, [], kinds) == p
  {
  }

  lemma CalledMore(p: Spec.Plan, calls: seq<Call>, kinds: Kinds, i: nat)
    requires i < |calls|
    ensures Spec.CalledAll(p, calls[..i + 1], kinds)
            == Spec.Called(Spec.CalledAll(p, calls[..i], kinds), calls[i], kinds)
  {
    var more := calls[..i + 1];
    assert more[..|more| - 1] == calls[..i] && more[|more| - 1] == calls[i];
  }

  /**
   A listed timer's wrapped timeout is its deadline, from the last check on and within half the tick range of now.
   Only a timer of no ticks at all can be due at the tick of the last check.
   */
  ghost predicate Listed(id: Id, timers: map<Id, Timer>, keys: map<Id, Key>, floor: nat, now: nat, started: nat) {
    && id in timers && id in keys
    && timers[id].timeoutTick == Wrap(keys[id].deadline)
    && floor <= keys[id].deadline < now + HALF
    && (timers[id].initTick > 0 ==> floor < keys[id].deadline)
    && keys[id].stamp < started
  }

  ghost predicate AllListed(row: seq<Id>, timers: map<Id, Timer>, keys: map<Id, Key>, floor: nat, now: nat,
                            started: nat)
  {
    forall id :: id in row ==> Listed(id, timers, keys, floor, now, started)
  }

  /** Listed timers either were there before, or were started since and are not due before now. */
  ghost predicate Aged(row: seq<Id>, keys: map<Id, Key>, started: nat, row': seq<Id>, keys': map<Id, Key>, now: nat) {
    forall id :: id in row' ==>
      && id in keys'
      && (|| (id in row && id in keys && keys'[id] == keys[id])
          || (keys'[id].stamp >= started && keys'[id].deadline >= now))
  }

  class TimerList {
    const levels: nat
    var rows: seq<seq<Id>>
    var timers: map<Id, Timer>
    var tick: Tick
    var randomNr: Tick

    ghost const kinds: Kinds
    ghost var now: nat
    ghost var floor: nat
    ghost var keys: map<Id, Key>
    ghost var started: nat

    ghost predicate Valid()
      reads this
    {
      && levels >= 1 && |rows| == levels
      && tick == Wrap(now) && floor <= now <= floor + 1
      && SkipList(rows, keys)
      && AllListed(rows[levels - 1], timers, keys, floor, now, started)
      && OfKinds(timers, kinds) && (forall id :: id in timers ==> Usable(timers[id]))
    }

    static ghost predicate Usable(timer: Timer) {
      timer.initTick < HALF
    }

    ghost function Bottom(): (row: seq<Id>)
      requires Valid()
      reads this
    {
      rows[levels - 1]
    }

    /** The list that the rows and flags stand for. */
    ghost function Plan(): (p: Spec.Plan)
      requires Valid()
      reads this
    {
      Spec.Plan(EntriesOf(Bottom(), keys), Active(timers), now)
    }

    lemma PlanIsGood()
      requires Valid()
      ensures Spec.Good(Plan(), kinds)
    {
      var row, es := Bottom(), Plan().row;
      assert Sorted(row, keys);
      forall i, j | 0 <= i < j < |row|
        ensures es[i].deadline <= es[j].deadline && es[i].id != es[j].id
      {
        assert Before(keys[row[i]], keys[row[j]]);
      }
      forall e | e in es
        ensures e.id in kinds
      {
        var i :| 0 <= i < |es| && es[i] == e;
        assert row[i] in row && Listed(row[i], timers, keys, floor, now, started);
        assert row[i] in timers.Keys;
      }
    }

    /** The rows and the ACTIVATED flags tell the same story, one timer possibly aside. */
    ghost predicate AgreeExcept(t: Id)
      requires Valid()
      reads this
    {
      forall id :: id in timers && id != t ==> (id in Bottom() <==> timers[id].activated)
    }

    ghost predicate Agree()
      requires Valid()
      reads this
    {
      forall id :: id in timers ==> (id in Bottom() <==> timers[id].activated)
    }

    constructor (levels: nat, timers: map<Id, Timer>)
      requires levels >= 1
      requires forall id :: id in timers ==> Usable(timers[id]) && !timers[id].activated
      ensures Valid() && Agree() && fresh(this)
      ensures this.levels == levels && this.timers == timers && Bottom() == [] && floor == now == 0
      ensures Plan() == Spec.Plan([], {}, 0)
    {
      this.levels := levels;
      kinds := map id | id in timers :: Kind(timers[id].initTick, timers[id].periodic);
      this.timers := timers;
      rows := seq(levels, _ => []);
      tick, randomNr := 0, 0;
      now, floor, keys, started := 0, 0, map[], 0;
    }

    /** _rt_timer_remove: unlinks a timer from every row it is on. */
    method RemoveRows(id: Id)
      requires Valid()
      modifies this`rows
      ensures Valid() && rows == RemovedRows(old(rows), id)
      ensures forall x :: x in Bottom() <==> x in old(Bottom()) && x != id
    {
      ghost var was := rows;
      for i := 0 to levels
        invariant |rows| == levels
        invariant forall r :: 0 <= r < i ==> rows[r] == Without(was[r], id)
        invariant forall r :: i <= r < levels ==> rows[r] == was[r]
      {
        rows := rows[i := Without(rows[i], id)];
      }
      assert rows == RemovedRows(was, id);
      RemovedSkipList(was, id, keys);
    }

    /** One row of the search: from `from`, over all timers that do not expire later. */
    method SearchRow(r: nat, from: nat, id: Id) returns (p: nat)
      requires Valid() && r < levels && from <= |rows[r]|
      requires id in timers && id in keys
      requires Listed(id, timers, keys, floor, now, started) && keys[id].deadline >= now
      requires forall x :: x in Bottom() ==> x in keys && keys[x].stamp < keys[id].stamp
      requires forall i :: 0 <= i < from ==> Before(keys[rows[r][i]], keys[id])
      ensures Place(rows[r], keys, keys[id], p)
    {
      p := from;
      var row := rows[r];
      assert Sorted(row, keys);
      while p < |row|
        invariant from <= p <= |row|
        invariant forall i :: 0 <= i < p ==> Before(keys[row[i]], keys[id])
      {
        var t := row[p];
        InBottomRow(rows, keys, r, t);
        assert Listed(t, timers, keys, floor, now, started);
        WrappedOrder(keys[t].deadline, keys[id].deadline);
        var later := Since(timers[t].timeoutTick, timers[id].timeoutTick);
        if later != 0 && later < HALF {
          break;
        }
        p := p + 1;
      }
      forall i | p <= i < |row|
        ensures Before(keys[id], keys[row[i]])
      {
        if p < i { assert Before(keys[row[p]], keys[row[i]]); }
      }
    }

    /** The search from the top row down: the place of a timer in every row. */
    method Search(id: Id) returns (places: seq<nat>)
      requires Valid()
      requires id in timers && id in keys
      requires Listed(id, timers, keys, floor, now, started) && keys[id].deadline >= now
      requires forall x :: x in Bottom() ==> x in keys && keys[x].stamp < keys[id].stamp
      ensures |places| == levels
      ensures forall r :: 0 <= r < levels ==> Place(rows[r], keys, keys[id], places[r])
    {
      places := [];
      var head: nat := 0;
      for r := 0 to levels
        invariant |places| == r
        invariant forall k :: 0 <= k < r ==> Place(rows[k], keys, keys[id], places[k])
        invariant r < levels ==> head <= |rows[r]|
        invariant r < levels ==> forall i :: 0 <= i < head ==> Before(keys[rows[r][i]], keys[id])
      {
        var p := SearchRow(r, head, id);
        places := places + [p];
        if r != levels - 1 {
          assert Within(rows[r], rows[r + 1]);
          if p == 0 {
            head := 0;
          } else {
            var q := IndexOf(rows[r + 1], rows[r][p - 1]);
            PlaceBelow(rows[r], rows[r + 1], keys, keys[id], p, q);
            head := q + 1;
          }
        }
      }
    }

    /** Links a timer into the bottom row and, while the insert counter's bits allow, the rows above. */
    method InsertRows(id: Id, places: seq<nat>)
      requires Valid() && id in keys && Listed(id, timers, keys, floor, now, started) && id !in Bottom()
      requires |places| == levels
      requires forall r :: 0 <= r < levels ==> Place(rows[r], keys, keys[id], places[r])
      modifies this`rows, this`randomNr
      ensures Valid()
      ensures forall x :: x in Bottom() <==> x in old(Bottom()) || x == id
    {
      randomNr := (randomNr + 1) % TICK_RANGE;
      var bits := randomNr;
      var r := levels - 1;
      InsertedSorted(rows[r], places[r], id, keys);
      rows := rows[r := Inserted(rows[r], places[r], id)];
      while r > 0 && bits % 4 == 0
        invariant 0 <= r < levels && |rows| == levels
        invariant forall k :: 0 <= k < r ==> rows[k] == old(rows[k])
        invariant forall k :: r <= k < levels ==> Sorted(rows[k], keys)
        invariant forall k :: r <= k < levels ==> forall x :: x in rows[k] <==> x in old(rows[k]) || x == id
      {
        r := r - 1;
        InsertedSorted(rows[r], places[r], id, keys);
        rows := rows[r := Inserted(rows[r], places[r], id)];
        bits := bits / 4;
      }
      forall k | 0 <= k < levels - 1
        ensures Within(rows[k], rows[k + 1])
      {
        assert Within(old(rows)[k], old(rows)[k + 1]);
      }
    }

    /** The first critical section of rt_timer_start, and all of rt_timer_stop. */
    method Detach(id: Id)
      requires Valid() && id in timers
      modifies this`rows, this`timers
      ensures Valid() && timers == old(timers)[id := old(timers[id]).(activated := false)]
      ensures forall x :: x in Bottom() <==> x in old(Bottom()) && x != id
    {
      RemoveRows(id);
      timers := timers[id := timers[id].(activated := false)];
    }

    /** The second critical section of rt_timer_start. */
    method Enter(id: Id)
      requires Valid() && Listed(id, timers, keys, floor, now, started) && id !in Bottom() && keys[id].deadline >= now
      requires forall x :: x in Bottom() ==> x in keys && keys[x].stamp < keys[id].stamp
      modifies this`rows, this`timers, this`randomNr
      ensures Valid() && timers == old(timers)[id := old(timers[id]).(activated := true)]
      ensures forall x :: x in Bottom() <==> x in old(Bottom()) || x == id
    {
      var places := Search(id);
      InsertRows(id, places);
      timers := timers[id := timers[id].(activated := true)];
    }

    /** Sets the timeout of a timer that is on no row. */
    method Arm(id: Id)
      requires Valid() && id in timers && id !in Bottom()
      modifies this`timers, this`keys, this`started
      ensures Valid() && started == old(started) + 1
      ensures timers == old(timers)[id := old(timers[id]).(
                timeoutTick := (tick + old(timers[id]).initTick) % TICK_RANGE)]
      ensures keys == old(keys)[id := Key(now + old(timers[id]).initTick, old(started))]
      ensures Listed(id, timers, keys, floor, now, started)
      ensures forall x :: x in Bottom() ==> x in keys && keys[x].stamp < keys[id].stamp
    {
      hide SkipList, AllListed, Wrap;
      RowKeyed();
      var timer := timers[id];
      OnNoRow(rows, keys, id);
      ghost var key := Key(now + timer.initTick, started);
      KeysKept(rows, id, keys, keys[id := key]);
      AddWrapped(now, timer.initTick);
      ArmedListed(Bottom(), id, timers, keys, floor, now, started,
                  timer.(timeoutTick := (tick + timer.initTick) % TICK_RANGE));
      timers := timers[id := timer.(timeoutTick := (tick + timer.initTick) % TICK_RANGE)];
      keys, started := keys[id := key], started + 1;
    }

    method Start(id: Id)
      requires Valid() && id in timers
      modifies this
      ensures Valid() && started >= old(started)
      ensures Aged(old(Bottom()), old(keys), old(started), Bottom(), keys, now)
      ensures now == old(now) && floor == old(floor) && tick == old(tick)
      ensures timers == old(timers)[id := old(timers[id]).(
                timeoutTick := (tick + old(timers[id]).initTick) % TICK_RANGE, activated := true)]
      ensures keys == old(keys)[id := Key(now + old(timers[id]).initTick, old(started))]
      ensures forall x :: x in Bottom() <==> x in old(Bottom()) || x == id
      ensures Plan() == Spec.Started(old(Plan()), id, kinds)
    {
      hide Valid, Aged, Sorted, EntriesOf, Active, Spec.Started, OfKinds, Before;
      RowKeyed();
      ghost var row, timers', keys' := Bottom(), timers, keys;
      Restart(id);
      RowKeyed();
      StartPlan(row, Bottom(), id, keys', keys, timers', timers, kinds, now);
    }

    method Restart(id: Id)
      requires Valid() && id in timers
      modifies this
      ensures Valid() && started >= old(started)
      ensures Aged(old(Bottom()), old(keys), old(started), Bottom(), keys, now)
      ensures now == old(now) && floor == old(floor) && tick == old(tick)
      ensures timers == old(timers)[id := old(timers[id]).(
                timeoutTick := (tick + old(timers[id]).initTick) % TICK_RANGE, activated := true)]
      ensures keys == old(keys)[id := Key(now + old(timers[id]).initTick, old(started))]
      ensures forall x :: x in Bottom() <==> x in old(Bottom()) || x == id
    {
      hide Valid, Aged, AllListed;
      ghost var timer := timers[id];
      RowListed();
      AgedStart(Bottom(), timers, keys, floor, now, started, id, now + timer.initTick);
      Detach(id);
      Arm(id);
      Enter(id);
      AgedFewer(old(Bottom()), old(keys), old(started), old(Bottom()) + [id], Bottom(), keys, now);
    }

    /** Returns false, and does nothing, for a timer that is not flagged as active. */
    method Stop(id: Id) returns (ok: bool)
      requires Valid() && id in timers
      modifies this
      ensures Valid() && started >= old(started)
      ensures Aged(old(Bottom()), old(keys), old(started), Bottom(), keys, now)
      ensures now == old(now) && floor == old(floor) && tick == old(tick)
      ensures keys == old(keys) && started == old(started)
      ensures ok == old(timers[id].activated)
      ensures timers == old(timers)[id := old(timers[id]).(activated := false)]
      ensures ok ==> forall x :: x in Bottom() <==> x in old(Bottom()) && x != id
      ensures !ok ==> rows == old(rows)
      ensures Plan() == Spec.Stopped(old(Plan()), id)
    {
      if !timers[id].activated {
        assert timers[id] == timers[id].(activated := false);
        return false;
      }
      ghost var row := Bottom();
      RowKeyed();
      Detach(id);
      RowKeyed();
      RowOff(row, Bottom(), id, keys);
      ActiveOff(old(timers), id, timers[id]);
      return true;
    }

    /** One call from the timeout function of `t`. */
    method RunCall(c: Call, t: Id)
      requires Valid() && t in timers && c.id in timers
      requires t in Bottom() ==> timers[t].activated
      modifies this
      ensures Valid() && started >= old(started)
      ensures Aged(old(Bottom()), old(keys), old(started), Bottom(), keys, now)
      ensures now == old(now) && floor == old(floor) && tick == old(tick)
      ensures SameKinds(old(timers), timers)
      ensures t in Bottom() ==> timers[t].activated
      ensures old(AgreeExcept(t)) ==> AgreeExcept(t)
      ensures t in Bottom() <==> if c.id == t then c.StartCall? else t in old(Bottom())
      ensures CallChange(c, old(Bottom()), old(keys), old(started), old(timers), Bottom(), keys, timers, now)
      ensures Plan() == Spec.Called(old(Plan()), c, kinds)
    {
      hide Valid, Aged, Spec.Started, Spec.Stopped, EntriesOf, Sorted, Before, OfKinds, CallChange;
      RowKeyed();
      match c
      case StartCall(id) =>
        Start(id);
        StartChanges(id, old(Bottom()), old(keys), old(started), old(timers), Bottom(), keys, timers, now,
                     timers[id].timeoutTick);
      case StopCall(id) =>
        var _ := Stop(id);
        StopChanges(id, old(Bottom()), old(keys), started, old(timers), Bottom(), timers, now);
    }

    /** A timeout function's calls, made while the timer `t` that expired is off the rows. */
    method RunCalls(calls: seq<Call>, t: Id)
      requires Valid() && t in timers && t !in Bottom()
      requires forall c :: c in calls ==> c.id in timers
      modifies this
      ensures Valid() && started >= old(started)
      ensures Aged(old(Bottom()), old(keys), old(started), Bottom(), keys, now)
      ensures now == old(now) && floor == old(floor) && tick == old(tick)
      ensures SameKinds(old(timers), timers)
      ensures t in Bottom() ==> timers[t].activated
      ensures old(AgreeExcept(t)) ==> AgreeExcept(t)
      ensures t in Bottom() <==> EndsStarted(calls, t)
      ensures Effects(calls, old(Bottom()), old(keys), old(started), Bottom(), keys, timers, now)
      ensures Plan() == Spec.CalledAll(old(Plan()), calls, kinds)
    {
      hide Valid, Aged, AllListed, Effects, Spec.Called, Spec.CalledAll, Plan, OfKinds, Sorted, SameKinds, CallChange,
           AgreeExcept, Before;
      RowListed();
      AgedNow(Bottom(), timers, keys, floor, now, started);
      RowKeyed();
      NoEffect(Bottom(), keys, started, timers, now);
      assert forall c :: c in calls ==> c.id in kinds.Keys;
      assert t in kinds.Keys;
      assert calls[..0] == [];
      ghost var p := Plan();
      NoCallsYet(p, kinds);
      for i := 0 to |calls|
        invariant Valid() && started >= old(started)
        invariant Aged(old(Bottom()), old(keys), old(started), Bottom(), keys, now)
        invariant now == old(now) && floor == old(floor) && tick == old(tick)
        invariant timers.Keys == kinds.Keys && (t in Bottom() ==> timers[t].activated)
        invariant old(AgreeExcept(t)) ==> AgreeExcept(t)
        invariant t in Bottom() <==> EndsStarted(calls[..i], t)
        invariant Effects(calls[..i], old(Bottom()), old(keys), old(started), Bottom(), keys, timers, now)
        invariant Plan() == Spec.CalledAll(p, calls[..i], kinds)
      {
        CalledMore(p, calls, kinds, i);
        assert calls[i] in calls;
        assert calls[..i + 1] == calls[..i] + [calls[i]] && calls[..i + 1][..i] == calls[..i];
        RowKeyed();
        ghost var row, keys', started', timers' := Bottom(), keys, started, timers;
        RunCall(calls[i], t);
        AgedAgain(old(Bottom()), old(keys), old(started), row, keys', started', Bottom(), keys, now);
        EffectMore(calls[..i], calls[i], old(Bottom()), old(keys), old(started), row, keys', timers', started',
                   Bottom(), keys, timers, now);
        RowKeyed();
      }
      assert calls[..|calls|] == calls;
      RowKeyed();
      KindsSame(old(timers), timers, kinds);
    }

    lemma RowListed()
      requires Valid()
      ensures AllListed(Bottom(), timers, keys, floor, now, started)
    {
    }

    lemma RowKeyed()
      requires Valid()
      ensures Sorted(Bottom(), keys) && OfKinds(timers, kinds) && timers.Keys == kinds.Keys
      ensures forall x :: x in Bottom() ==> x in keys && x in timers && keys[x].stamp < started
    {
      assert AllListed(Bottom(), timers, keys, floor, now, started);
    }

    /** The listed timers whose time has come. */
    ghost function Due(): (ids: set<Id>)
      requires Valid()
      reads this
    {
      set id | id in Bottom() && keys[id].deadline <= now
    }

    /** Takes the first timer off the rows. */
    method TakeFirst() returns (t: Id)
      requires Valid() && Bottom() != []
      modifies this`rows
      ensures Valid() && t == old(Bottom()[0]) && t in timers
      ensures forall x :: x in Bottom() <==> x in old(Bottom()) && x != t
      ensures forall x :: x in Bottom() ==> Before(keys[t], keys[x])
      ensures t in keys && keys[t].stamp < started && (old(Agree()) ==> AgreeExcept(t))
      ensures old(Plan()).row != [] && old(Plan()).row[0] == Spec.Entry(t, keys[t].deadline)
      ensures Plan() == old(Plan()).(row := old(Plan()).row[1..])
    {
      t := rows[levels - 1][0];
      ghost var row := rows[levels - 1];
      assert Sorted(row, keys) && t in row && Listed(t, timers, keys, floor, now, started);
      RemoveRows(t);
      forall x | x in Bottom()
        ensures Before(keys[t], keys[x])
      {
        var i :| 0 <= i < |row| && row[i] == x;
        assert row[0] == t && i > 0;
      }
      forall x
        ensures x in row[1..] <==> x in Bottom()
      {
        InTail(row, keys, x);
      }
      SortedUnique(row[1..], Bottom(), keys);
      assert EntriesOf(row[1..], keys) == EntriesOf(row, keys)[1..];
    }

    /** What rt_timer_check does with a timer after its timeout function: start it again, or end it. */
    method Settle(t: Id)
      requires Valid() && t in timers && (t in Bottom() ==> timers[t].activated)
      modifies this
      ensures Valid() && started >= old(started)
      ensures now == old(now) && floor == old(floor) && tick == old(tick)
      ensures SameKinds(old(timers), timers)
      ensures Aged(old(Bottom()), old(keys), old(started), Bottom(), keys, now)
      ensures old(AgreeExcept(t)) ==> (Agree() <==> timers[t].periodic || t !in old(Bottom()))
      ensures SettleChange(t, old(Bottom()), old(keys), old(timers), Bottom(), keys, timers, now)
      ensures Plan() == Spec.Settled(old(Plan()), t, kinds)
    {
      hide Valid, EntriesOf, Spec.Started, Aged, AllListed, Sorted, Active, OfKinds, Before, SettleChange;
      RowListed();
      RowKeyed();
      KindOf(timers, kinds, t);
      ActiveIs(timers, t);
      AgedNow(Bottom(), timers, keys, floor, now, started);
      ghost var row, p := Bottom(), Plan();
      var again := timers[t].periodic && timers[t].activated;
      Unflag(t);
      if again {
        Start(t);
        StartedAnyway(p, t, kinds);
      }
      SettledIs(t, again, row, old(keys), old(timers), Bottom(), keys, timers, now);
    }

    /** timer->parent.flag &= ~RT_TIMER_FLAG_ACTIVATED */
    method Unflag(t: Id)
      requires Valid() && t in timers
      modifies this`timers
      ensures Valid() && rows == old(rows) && timers == old(timers)[t := old(timers[t]).(activated := false)]
      ensures Plan() == old(Plan()).(active := old(Plan()).active - {t})
    {
      ActiveOff(timers, t, timers[t].(activated := false));
      timers := timers[t := timers[t].(activated := false)];
    }

    /** One expiry: the first timer leaves the rows, its timeout function runs, and it is settled. */
    method Fire(calls: seq<Call>) returns (t: Id)
      requires Valid() && Bottom() != [] && keys[Bottom()[0]].deadline <= now
      requires forall c :: c in calls ==> c.id in timers
      modifies this
      ensures Valid() && started >= old(started)
      ensures t == old(Bottom()[0]) && t in timers
      ensures now == old(now) && floor == old(floor) && tick == old(tick)
      ensures SameKinds(old(timers), timers)
      ensures forall id :: id in Bottom() ==> id in keys && Before(old(keys)[t], keys[id])
      ensures !timers[t].periodic ==> !timers[t].activated && (t in Bottom() <==> EndsStarted(calls, t))
      ensures t in Bottom() ==> keys[t].deadline == now + timers[t].initTick && keys[t].stamp >= old(started)
      ensures old(Agree()) ==> (Agree() <==> timers[t].periodic || !EndsStarted(calls, t))
      ensures forall x :: x != t ==>
                Effect(calls, x, old(Bottom()), old(keys), old(started), Bottom(), keys, timers, now)
      ensures var p := old(Plan());
              && Spec.DueFirst(p) && p.row[0] == Spec.Entry(t, old(keys)[t].deadline)
              && Plan() == Spec.Settled(Spec.CalledAll(p.(row := p.row[1..]), calls, kinds), t, kinds)
    {
      hide Valid, Spec.CalledAll, Spec.Settled, Effects, SettleChange, EntriesOf, Before, Sorted, OfKinds, AgreeExcept,
           Aged, SameKinds, EndsStarted;
      RowKeyed();
      t := TakeFirst();
      ghost var row, key, start, timers0 := Bottom(), keys[t], started, timers;
      RunCalls(calls, t);
      RowKeyed();
      ghost var row', keys', start', timers' := Bottom(), keys, started, timers;
      Settle(t);
      AgedAgain(row, old(keys), start, row', keys', start', Bottom(), keys, now);
      AgedAfter(row, old(keys), start, Bottom(), keys, now, key);
      forall x | x != t
        ensures Effect(calls, x, old(Bottom()), old(keys), old(started), Bottom(), keys, timers, now)
      {
        EffectSettled(calls, x, t, old(Bottom()), row, old(keys), start, row', keys', timers', Bottom(), keys, timers,
                      now);
      }
      SelfSettled(calls, t, row, old(keys), start, row', keys', timers', Bottom(), keys, timers, now);
      AgedSelf(t, row, old(keys), start, Bottom(), keys, now);
      RowKeyed();
      KindsSame(timers0, timers, kinds);
    }

    /** The expiry test on the first timer, by wrapped subtraction; if it fails, no timer is due. */
    method FirstIsDue() returns (due: bool)
      requires Valid()
      ensures due <==> Bottom() != [] && Bottom()[0] in Due()
      ensures due <==> Spec.DueFirst(Plan())
      ensures !due ==> Due() == {}
    {
      var row := rows[levels - 1];
      if row == [] { return false; }
      assert row[0] in row && Listed(row[0], timers, keys, floor, now, started);
      WrappedOrder(now, keys[row[0]].deadline);
      due := Since(tick, timers[row[0]].timeoutTick) < HALF;
      forall id | id in row && id != row[0]
        ensures Before(keys[row[0]], keys[id])
      {
        assert Sorted(row, keys);
      }
    }

    lemma DueIsPlanned()
      requires Valid()
      ensures Due() == Spec.DueIds(Plan())
    {
      var row, p := Bottom(), Plan();
      RowKeyed();
      forall x | x in Due()
        ensures x in Spec.DueIds(p)
      {
        var i :| 0 <= i < |row| && row[i] == x;
        assert p.row[i] in p.row;
      }
      forall x | x in Spec.DueIds(p)
        ensures x in Due()
      {
        var e :| e in p.row && e.deadline <= p.now && e.id == x;
        var i :| 0 <= i < |p.row| && p.row[i] == e;
        assert row[i] in row;
      }
    }

    /** One round of rt_timer_check: the first timer, which is due, expires. */
    method Round(callbacks: Callbacks) returns (t: Id, ghost key: Key)
      requires Valid() && Bottom() != [] && Bottom()[0] in Due() && Known(callbacks, kinds)
      modifies this
      ensures Valid() && started >= old(started)
      ensures t == old(Bottom()[0]) && t in timers && t in kinds && t in old(Due()) && key == old(keys)[t]
      ensures now == old(now) && floor == old(floor) && tick == old(tick)
      ensures SameKinds(old(timers), timers)
      ensures forall id :: id in Bottom() ==> id in keys && Before(key, keys[id])
      ensures Expired(t, callbacks, kinds, old(Due()), old(keys), old(started), Due(), keys, now)
      ensures old(Agree()) ==> (Agree() <==> kinds[t].periodic || !EndsStarted(CallsOf(callbacks, t), t))
      ensures Spec.DueFirst(old(Plan())) && old(Plan()).row[0] == Spec.Entry(t, key.deadline)
      ensures Plan() == Spec.Next(old(Plan()), callbacks, kinds)
    {
      RowKeyed();
      key := keys[Bottom()[0]];
      DueIsPlanned();
      PlanIsGood();
      var calls := CallsOf(callbacks, rows[levels - 1][0]);
      KnownCalls(callbacks, kinds, rows[levels - 1][0]);
      t := Fire(calls);
      RowKeyed();
      DueIsPlanned();
      StartsConcern(calls);
      SelfDue(old(Plan()), t, callbacks, kinds);
      hide SkipList, AllListed, EndsStarted, Concerns, Spec.DueIds, Spec.Next, EntriesOf, Spec.Good, Known;
      forall x
        ensures ExpiredAt(x, t, callbacks, kinds, old(Due()), old(keys), old(started), Due(), keys, now)
      {
        if x != t { assert Effect(calls, x, old(Bottom()), old(keys), old(started), Bottom(), keys, timers, now); }
      }
    }

    ghost function Snapshot(): (b: Beginning)
      requires Valid()
      reads this
    {
      Begin(kinds, Due(), keys, started, now)
    }

    /**
     rt_timer_check, with the calls that each timer's timeout function makes.

     What expires, and in which order, is exactly what expires from the list that the rows stand for.  Every
     timer that was due and that no expired timer's function touched expires exactly once.  What else expires
     was started for this very tick by a timer that expired before it.  The keys of the expired timers are
     logged: they expire by deadline, and by start among equal deadlines.
     */
    method Check(callbacks: Callbacks) returns (fired: seq<Id>, ghost log: seq<Key>)
      requires Valid() && Known(callbacks, kinds) && Spec.Ends(Plan(), callbacks, kinds)
      modifies this
      ensures Valid() && Due() == {}
      ensures now == old(now) && floor == old(floor) && tick == old(tick)
      ensures SameKinds(old(timers), timers)
      ensures |log| == |fired| && InOrder(log)
      ensures EntriesLogged(fired, log) == Spec.AllExpiries(old(Plan()), callbacks, kinds)
      ensures Plan() == Spec.Finished(old(Plan()), callbacks, kinds)
      ensures forall i :: 0 <= i < |fired| ==> Origin(i, fired, log, callbacks, old(Snapshot()))
      ensures forall x :: x in old(Due()) && Spared(x, fired, callbacks) ==> multiset(fired)[x] == 1
      ensures old(Agree()) && NoneRevives(callbacks, kinds) ==> Agree()
      ensures callbacks == map[] ==> Sorted(fired, old(keys)) && forall x :: x in fired <==> x in old(Due())
    {
      hide Valid, InOrder, Behind, Progress, StartsNow, NoneRevives, Expired, Agree, Known, Before, Plan, Spec.Next,
           Spec.Nth, Spec.Expiries, EntriesLogged, OfKinds, SameKinds, Sorted, Spec.DueFirst, Origin;
      fired, log := [], [];
      ghost var b, p := Snapshot(), Plan();
      ghost var n: nat :| Spec.Over(p, n, callbacks, kinds);
      DueIsPlanned();
      PlanIsGood();
      RowKeyed();
      ProgressStart(callbacks, b);
      NothingLogged(p, callbacks, kinds);
      var due := FirstIsDue();
      while due
        invariant Valid() && started >= b.started
        invariant due <==> Bottom() != [] && Bottom()[0] in Due()
        invariant due <==> Spec.DueFirst(Plan())
        invariant !due ==> Due() == {}
        invariant now == old(now) && floor == old(floor) && tick == old(tick)
        invariant InOrder(log)
        invariant forall id :: id in Bottom() ==> id in keys && Behind(log, keys[id])
        invariant Progress(fired, log, Due(), keys, callbacks, b)
        invariant |log| == |fired| && EntriesLogged(fired, log) == Spec.Expiries(p, |fired|, callbacks, kinds)
        invariant Plan() == Spec.Nth(p, |fired|, callbacks, kinds)
        invariant old(Agree()) && NoneRevives(callbacks, kinds) ==> Agree()
        decreases n - |fired|
      {
        NotOverYet(p, n, |fired|, callbacks, kinds);
        ghost var due', keys', started' := Due(), keys, started;
        var t;
        ghost var key;
        t, key := Round(callbacks);
        LogGrows(log, key, Bottom(), keys);
        ProgressStep(fired, log, due', keys', started', t, Due(), keys, callbacks, b);
        RevivesStep(callbacks, kinds, t);
        Spec.OneMore(p, |fired|, callbacks, kinds);
        LoggedMore(fired, log, t, key);
        log := log + [key];
        fired := fired + [t];
        due := FirstIsDue();
      }
      RowKeyed();
      KindsSame(old(timers), timers, kinds);
      Spec.FinishedIs(p, |fired|, callbacks, kinds);
      ProgressEnd(fired, log, keys, callbacks, b, p);
    }

    /** A check that does not come to an end has a timer due after any number of rounds. */
    method KeepsFiring(callbacks: Callbacks, rounds: nat) returns (fired: seq<Id>)
      requires Valid() && Known(callbacks, kinds) && !Spec.Ends(Plan(), callbacks, kinds)
      modifies this
      ensures Valid() && now == old(now) && |fired| == rounds
      ensures Plan() == Spec.Nth(old(Plan()), rounds, callbacks, kinds) && Bottom() != [] && Bottom()[0] in Due()
    {
      hide Valid, Expired, Known, Before, Plan, Spec.Next, Spec.DueFirst;
      fired := [];
      ghost var p := Plan();
      var due := FirstIsDue();
      assert !Spec.Over(p, 0, callbacks, kinds);
      while |fired| < rounds
        invariant Valid() && now == old(now) && |fired| <= rounds
        invariant Plan() == Spec.Nth(p, |fired|, callbacks, kinds)
        invariant Bottom() != [] && Bottom()[0] in Due()
      {
        var t;
        ghost var key;
        t, key := Round(callbacks);
        fired := fired + [t];
        due := FirstIsDue();
        assert !Spec.Over(p, |fired|, callbacks, kinds);
      }
    }

    /** ++rt_tick */
    method Advance()
      requires Valid() && floor == now
      modifies this`tick, this`now
      ensures Valid() && now == old(now) + 1 && Plan() == Spec.Ticked(old(Plan()))
    {
      AddWrapped(now, 1);
      tick, now := (tick + 1) % TICK_RANGE, now + 1;
    }

    /**
     rt_tick_increase, as far as timers are concerned.

     A timer of at least one tick expires at the tick of its deadline, neither early nor late.
     */
    method TickIncrease(callbacks: Callbacks) returns (fired: seq<Id>, ghost log: seq<Key>)
      requires Valid() && floor == now && Known(callbacks, kinds)
      requires Spec.Ends(Spec.Ticked(Plan()), callbacks, kinds)
      modifies this
      ensures Valid() && now == old(now) + 1 && floor == now && Due() == {}
      ensures SameKinds(old(timers), timers)
      ensures |log| == |fired| && InOrder(log)
      ensures EntriesLogged(fired, log) == Spec.AllExpiries(Spec.Ticked(old(Plan())), callbacks, kinds)
      ensures Plan() == Spec.After(old(Plan()), Spec.TickOp(callbacks), kinds)
      ensures forall i :: 0 <= i < |fired| ==> fired[i] in kinds
      ensures forall i :: 0 <= i < |fired| && kinds[fired[i]].initTick > 0 ==>
                log[i].deadline == now && fired[i] in old(Bottom()) && log[i] == old(keys)[fired[i]]
      ensures forall x :: x in old(Bottom()) && old(keys)[x].deadline <= now && Spared(x, fired, callbacks) ==>
                multiset(fired)[x] == 1
      ensures old(Agree()) && NoneRevives(callbacks, kinds) ==> Agree()
      ensures callbacks == map[] ==>
                && Sorted(fired, old(keys))
                && forall x :: x in fired <==> x in old(Bottom()) && old(keys)[x].deadline <= now
    {
      hide Valid, Known, Spec.Ends, Spec.Finished, Spec.AllExpiries, EntriesLogged, EntriesOf, AllListed, Sorted,
           OfKinds, InOrder, SameKinds, Source, Spared, NoneRevives;
      RowKeyed();
      RowListed();
      ghost var row, timers' := Bottom(), timers;
      Advance();
      ghost var b := Snapshot();
      fired, log := Check(callbacks);
      forall i | 0 <= i < |fired|
        ensures fired[i] in kinds
        ensures kinds[fired[i]].initTick > 0 ==>
                  log[i].deadline == now && fired[i] in b.due && log[i] == b.keys[fired[i]]
      {
        assert Origin(i, fired, log, callbacks, b);
        DueWithTicks(fired[i], log[i], fired[..i], callbacks, b, row, timers', floor);
      }
      RaiseFloor();
    }

    /** Nothing is due any more. */
    ghost method RaiseFloor()
      requires Valid() && Due() == {}
      modifies this`floor
      ensures Valid() && floor == now
    {
      forall id | id in Bottom()
        ensures Listed(id, timers, keys, now, now, started)
      {
        assert Listed(id, timers, keys, floor, now, started) && id !in Due();
      }
      floor := now;
    }

    /** rt_timer_list_next_timeout: the earliest timeout of all. */
    method NextTimeout() returns (t: Tick)
      requires Valid()
      ensures Bottom() == [] ==> t == RT_TICK_MAX
      ensures Bottom() != [] ==> exists id :: id in Bottom() && t == Wrap(keys[id].deadline) &&
                                   forall x :: x in Bottom() ==> keys[id].deadline <= keys[x].deadline
    {
      var row := rows[levels - 1];
      if row == [] { return RT_TICK_MAX; }
      assert row[0] in row && Listed(row[0], timers, keys, floor, now, started);
      assert Sorted(row, keys);
      return timers[row[0]].timeoutTick;
    }

    /** Every row is a subsequence of the row below, and the bottom row is all there is to know. */
    lemma RowsAreSubsequences(r: nat) returns (f: seq<nat>)
      requires Valid() && r < levels - 1
      ensures Embeds(f, rows[r], rows[r + 1])
    {
      assert Sorted(rows[r], keys) && Sorted(rows[r + 1], keys) && Within(rows[r], rows[r + 1]);
      f := SubsequenceBelow(rows[r], rows[r + 1], keys);
    }

    /**
     Any run of application calls and ticks does to the rows what it does to the list they stand for, and
     everything expires that expires there, in that order.

     Timers of at least one tick expire at the tick of their deadline.
     */
    method Run(ops: seq<Spec.Op>) returns (ghost expiries: seq<Spec.Expiry>)
      requires Valid() && floor == now && Spec.AllComplete(Plan(), ops, kinds)
      modifies this
      ensures Valid() && floor == now && now == old(now) + Ticks(ops)
      ensures SameKinds(old(timers), timers)
      ensures Plan() == Spec.Ran(old(Plan()), ops, kinds) && expiries == Spec.Log(old(Plan()), ops, kinds)
      ensures Spec.Flagged(old(Plan()), kinds) ==> Spec.Flagged(Plan(), kinds)
      ensures forall e :: e in expiries ==> Punctual(e, kinds, old(now), now)
      ensures old(Agree()) && (forall op :: op in ops ==> Quiet(op, kinds)) ==> Agree()
    {
      hide Valid, SameKinds, OfKinds, Sorted, Agree, NoneRevives, Known, Plan, Punctual, Spec.After, Spec.LogOf,
           Spec.Good, Spec.Flagged, Spec.Ran, Spec.Log, Spec.Completes;
      RowKeyed();
      PlanIsGood();
      Ends.RanGood(Plan(), ops, kinds);
      expiries := [];
      ghost var p := Plan();
      NothingRan(p, ops, kinds);
      for i := 0 to |ops|
        invariant Valid() && floor == now && now == old(now) + Ticks(ops[..i])
        invariant Plan() == Spec.Ran(p, ops[..i], kinds) && expiries == Spec.Log(p, ops[..i], kinds)
        invariant forall e :: e in expiries ==> Punctual(e, kinds, old(now), now)
        invariant old(Agree()) && (forall op :: op in ops ==> Quiet(op, kinds)) ==> Agree()
      {
        assert ops[i] in ops && ops[..i + 1][..i] == ops[..i];
        assert Spec.Completes(Plan(), ops[i], kinds);
        Spec.RanMore(p, ops, kinds, i);
        ghost var more := Operate(ops[i]);
        PunctualLonger(expiries, more, kinds, old(now), now - if ops[i].TickOp? then 1 else 0, now);
        expiries := expiries + more;
      }
      RowKeyed();
      KindsSame(old(timers), timers, kinds);
      assert ops[..|ops|] == ops;
    }

    /** One operation of a run. */
    method Operate(op: Spec.Op) returns (ghost expiries: seq<Spec.Expiry>)
      requires Valid() && floor == now && Spec.Completes(Plan(), op, kinds)
      modifies this
      ensures Valid() && floor == now && now == old(now) + if op.TickOp? then 1 else 0
      ensures SameKinds(old(timers), timers)
      ensures Plan() == Spec.After(old(Plan()), op, kinds) && expiries == Spec.LogOf(old(Plan()), op, kinds)
      ensures forall e :: e in expiries ==> Punctual(e, kinds, old(now), now)
      ensures old(Agree()) && Quiet(op, kinds) ==> Agree()
    {
      expiries := [];
      RowKeyed();
      hide NoneRevives, Known, EntriesOf, Spec.Started, Spec.Stopped, Spec.Ends, Spec.Finished, Spec.AllExpiries,
           SkipList;
      match op
      case StartOp(id) => assert id in timers.Keys; Start(id);
      case StopOp(id) => assert id in timers.Keys; var _ := Stop(id);
      case TickOp(callbacks) => expiries := TickOnce(callbacks);
    }

    method TickOnce(callbacks: Callbacks) returns (ghost expiries: seq<Spec.Expiry>)
      requires Valid() && floor == now && Spec.Completes(Plan(), Spec.TickOp(callbacks), kinds)
      modifies this
      ensures Valid() && now == old(now) + 1 && floor == now && SameKinds(old(timers), timers)
      ensures Plan() == Spec.After(old(Plan()), Spec.TickOp(callbacks), kinds)
      ensures expiries == Spec.LogOf(old(Plan()), Spec.TickOp(callbacks), kinds)
      ensures forall e :: e in expiries ==> Punctual(e, kinds, old(now), now)
      ensures old(Agree()) && NoneRevives(callbacks, kinds) ==> Agree()
    {
      hide Agree, NoneRevives, InOrder, Spared, Valid, Known, Spec.Finished, Spec.AllExpiries, Spec.Ends, Sorted,
           EntriesOf;
      var fired;
      ghost var log;
      fired, log := TickIncrease(callbacks);
      expiries := Spec.ExpiriesAt(EntriesLogged(fired, log), now);
      AllPunctual(fired, log, kinds, now);
    }
  }

  lemma NothingRan(p: Spec.Plan, ops: seq<Spec.Op>, kinds: Kinds)
    ensures Spec.Ran(p, ops[..0], kinds) == p && Spec.Log(p, ops[..0], kinds) == []
    ensures Ticks(ops[..0]) == 0
  {
  }

  /** A timer of at least one tick expired at the tick of its deadline. */
  ghost predicate Punctual(e: Spec.Expiry, kinds: Kinds, from: nat, to: nat) {
    && e.entry.id in kinds && from < e.at <= to
    && (kinds[e.entry.id].initTick > 0 ==> e.entry.deadline == e.at)
  }

  lemma PunctualLonger(es: seq<Spec.Expiry>, more: seq<Spec.Expiry>, kinds: Kinds, from: nat, mid: int, to: nat)
    requires from <= mid <= to
    requires forall e :: e in es ==> Punctual(e, kinds, from, mid)
    requires forall e :: e in more ==> Punctual(e, kinds, mid, to)
    ensures forall e :: e in es + more ==> Punctual(e, kinds, from, to)
  {
  }

  lemma AllPunctual(fired: seq<Id>, log: seq<Key>, kinds: Kinds, now: nat)
    requires |log| == |fired| && now > 0 && forall i :: 0 <= i < |fired| ==> fired[i] in kinds
    requires forall i :: 0 <= i < |fired| && kinds[fired[i]].initTick > 0 ==> log[i].deadline == now
    ensures forall e :: e in Spec.ExpiriesAt(EntriesLogged(fired, log), now) ==> Punctual(e, kinds, now - 1, now)
  {
  }

  ghost function Ticks(ops: seq<Spec.Op>): (n: nat) {
    if ops == [] then 0 else Ticks(ops[..|ops| - 1]) + if ops[|ops| - 1].TickOp? then 1 else 0
  }

  /** No one-shot timer is left started by its own timeout function. */
  ghost predicate Quiet(op: Spec.Op, kinds: Kinds) {
    op.TickOp? ==> NoneRevives(op.callbacks, kinds)
  }

  /** A one-shot timer that its own timeout function starts again stays listed, but flagged inactive. */
  method RevivedTimer() returns (list: TimerList)
    ensures list.Valid() && 0 in list.timers && 0 in list.Bottom() && !list.timers[0].activated
  {
    list := new TimerList(1, map[0 := Timer(1, 0, false, false)]);
    list.Start(0);
    list.Advance();
    assert list.Bottom() == [0] by { assert 0 in list.Bottom(); SingleRow(list.Bottom(), list.keys, 0); }
    var calls := [StartCall(0)];
    assert EndsStarted(calls, 0);
    var _ := list.Fire(calls);
  }

  /** A timer of no ticks that its own timeout function starts again is first and due once more, at the same tick. */
  method RestartedAtOnce() returns (list: TimerList)
    ensures list.Valid() && list.Bottom() == [0] && 0 in list.Due() && 0 in list.keys
            && list.keys[0].deadline == list.now
  {
    list := new TimerList(1, map[0 := Timer(0, 0, false, false)]);
    list.Start(0);
    assert list.Bottom() == [0] by { assert 0 in list.Bottom(); SingleRow(list.Bottom(), list.keys, 0); }
    var calls := [StartCall(0)];
    assert EndsStarted(calls, 0);
    var _ := list.Fire(calls);
    assert list.Bottom() == [0] by {
      assert 0 in list.Bottom();
      list.RowKeyed();
      SingleRow(list.Bottom(), list.keys, 0);
    }
  }

  /** A periodic timer of no ticks, once started, is enough for a check that does not end. */
  method PeriodicOfNoTicks() returns (list: TimerList)
    ensures list.Valid() && Known(map[], list.kinds) && !Spec.Ends(list.Plan(), map[], list.kinds)
  {
    list := new TimerList(1, map[0 := Timer(0, 0, true, false)]);
    list.RowKeyed();
    assert 0 in list.timers.Keys;
    list.Start(0);
    list.PlanIsGood();
    list.DueIsPlanned();
    assert 0 in list.Bottom() && 0 in list.Due();
    GoesOnAlone(list.Plan(), list.kinds);
  }

  /** A timer of no ticks that would start itself again and again does no harm while it is not due. */
  method NeverStarted() returns (fired: seq<Id>)
    ensures fired == []
  {
    var list := new TimerList(1, map[0 := Timer(0, 0, false, false)]);
    var callbacks: Callbacks := map[0 := [StartCall(0)]];
    list.RowKeyed();
    assert 0 in list.timers.Keys;
    ghost var p := list.Plan();
    assert Spec.Nth(p, 0, callbacks, list.kinds) == p && Spec.Over(p, 0, callbacks, list.kinds);
    Spec.FinishedIs(p, 0, callbacks, list.kinds);
    ghost var log;
    fired, log := list.Check(callbacks);
    assert |EntriesLogged(fired, log)| == 0;
  }

  lemma GoesOnAlone(p: Spec.Plan, kinds: Kinds)
    requires Spec.Good(p, kinds) && kinds == map[0 := Kind(0, true)] && 0 in p.active && 0 in Spec.DueIds(p)
    ensures !Spec.Ends(p, map[], kinds)
  {
    var none: Callbacks := map[];
    assert StartsNow(none, kinds, 0, 0) && StartsOneOf(none, kinds, 0, {0});
    assert Trap(none, kinds, {0}) && Ends.Meets({0}, Spec.DueIds(p));
    forall n: nat
      ensures !Spec.Over(p, n, none, kinds)
    {
      Ends.DueTrapGoesOn(p, none, kinds, {0}, n);
    }
  }

  lemma SingleRow(row: seq<Id>, keys: map<Id, Key>, id: Id)
    requires Sorted(row, keys) && id in row && forall x :: x in row ==> x == id
    ensures row == [id]
  {
    SortedUnique(row, [id], keys);
  }

  ghost predicate InOrder(log: seq<Key>) {
    forall i, j :: 0 <= i < j < |log| ==> Before(log[i], log[j])
  }

  /** No one-shot timer is left started by its own timeout function. */
  ghost predicate NoneRevives(callbacks: Callbacks, kinds: Kinds) {
    forall id :: id in kinds && !kinds[id].periodic ==> !EndsStarted(CallsOf(callbacks, id), id)
  }

  lemma RevivesStep(callbacks: Callbacks, kinds: Kinds, t: Id)
    requires t in kinds
    ensures NoneRevives(callbacks, kinds) ==> kinds[t].periodic || !EndsStarted(CallsOf(callbacks, t), t)
  {
  }

  lemma StartsConcern(calls: seq<Call>)
    ensures forall x :: EndsStarted(calls, x) ==> Concerns(calls, x)
  {
    forall x
      ensures EndsStarted(calls, x) ==> Concerns(calls, x)
    {
      Spec.StartConcerns(calls, x);
    }
  }

  // ----- what one expiry does to the timers that are due -----

  /** Untouched timers stay as they were; what is due afterwards was due before or is started for this tick. */
  ghost predicate ExpiredAt(x: Id, t: Id, callbacks: Callbacks, kinds: Kinds,
                            due: set<Id>, keys: map<Id, Key>, started: nat,
                            due': set<Id>, keys': map<Id, Key>, now: nat)
  {
    && (x in due' ==>
          x in keys' && (|| (x in due && x != t && x in keys && keys'[x] == keys[x])
                         || (StartsNow(callbacks, kinds, t, x) && keys'[x].deadline == now
                             && keys'[x].stamp >= started)))
    && (x in due && x != t && !Concerns(CallsOf(callbacks, t), x) ==> x in due')
    && (NoTicks(kinds, x) && EndsStarted(CallsOf(callbacks, t), x) ==> x in due')
  }

  ghost predicate Expired(t: Id, callbacks: Callbacks, kinds: Kinds,
                          due: set<Id>, keys: map<Id, Key>, started: nat,
                          due': set<Id>, keys': map<Id, Key>, now: nat)
  {
    forall x :: ExpiredAt(x, t, callbacks, kinds, due, keys, started, due', keys', now)
  }

  /** When the timer that expires is due again at once. */
  lemma SelfDue(p: Spec.Plan, t: Id, callbacks: Callbacks, kinds: Kinds)
    requires Spec.Good(p, kinds) && Known(callbacks, kinds) && Spec.DueFirst(p) && p.row[0].id == t
    ensures var due' := Spec.DueIds(Spec.Next(p, callbacks, kinds));
            && (t in due' ==> StartsNow(callbacks, kinds, t, t))
            && (NoTicks(kinds, t) && EndsStarted(CallsOf(callbacks, t), t) ==> t in due')
  {
    hide Spec.DueIds, Spec.Next, Known, StartsNow, EndsStarted, Spec.Good;
    var q := Spec.Next(p, callbacks, kinds);
    if t in Spec.DueIds(q) { Spec.DueNext(p, callbacks, kinds, t); }
    Spec.NextSelf(p, callbacks, kinds);
    Spec.NextGood(p, callbacks, kinds);
    if EndsStarted(CallsOf(callbacks, t), t) { Spec.IsDue(q, t, Spec.DeadlineOf(p, t, kinds)); }
  }

  // ----- the log -----

  ghost function EntriesLogged(fired: seq<Id>, log: seq<Key>): (es: seq<Spec.Entry>)
    requires |log| == |fired|
  {
    seq(|fired|, i requires 0 <= i < |fired| => Spec.Entry(fired[i], log[i].deadline))
  }

  lemma NothingLogged(p: Spec.Plan, callbacks: Callbacks, kinds: Kinds)
    ensures EntriesLogged([], []) == Spec.Expiries(p, 0, callbacks, kinds) && Spec.Nth(p, 0, callbacks, kinds) == p
  {
  }

  lemma LoggedMore(fired: seq<Id>, log: seq<Key>, t: Id, key: Key)
    requires |log| == |fired|
    ensures EntriesLogged(fired + [t], log + [key]) == EntriesLogged(fired, log) + [Spec.Entry(t, key.deadline)]
  {
  }

  lemma NotOverYet(p: Spec.Plan, n: nat, m: nat, callbacks: Callbacks, kinds: Kinds)
    requires Spec.Over(p, n, callbacks, kinds) && Spec.DueFirst(Spec.Nth(p, m, callbacks, kinds))
    ensures m < n
  {
    if n <= m { Spec.OverStays(p, n, m, callbacks, kinds); }
  }

  lemma {:induction false} CountIsMultiset(fired: seq<Id>, log: seq<Key>, x: Id)
    requires |log| == |fired|
    ensures Ends.CountOf(EntriesLogged(fired, log), x) == multiset(fired)[x]
  {
    if fired != [] {
      var n := |fired| - 1;
      CountIsMultiset(fired[..n], log[..n], x);
      var es := EntriesLogged(fired, log);
      assert es[..|es| - 1] == EntriesLogged(fired[..n], log[..n]);
      assert fired == fired[..n] + [fired[n]];
    }
  }

  // ----- where expired timers come from -----

  /** What a check begins with. */
  datatype Beginning = Begin(kinds: Kinds, due: set<Id>, keys: map<Id, Key>, started: nat, now: nat)

  ghost predicate StartedBy(x: Id, fired: seq<Id>, callbacks: Callbacks, kinds: Kinds) {
    exists i :: 0 <= i < |fired| && StartsNow(callbacks, kinds, fired[i], x)
  }

  /** A timer with this key was due from the beginning, or was started for this tick by one of `fired`. */
  ghost predicate Source(x: Id, key: Key, fired: seq<Id>, callbacks: Callbacks, b: Beginning) {
    && key.deadline <= b.now
    && (|| (x in b.due && x in b.keys && key == b.keys[x])
        || (StartedBy(x, fired, callbacks, b.kinds) && key.deadline == b.now && key.stamp >= b.started))
  }

  ghost predicate Origin(i: int, fired: seq<Id>, log: seq<Key>, callbacks: Callbacks, b: Beginning)
    requires 0 <= i < |fired| == |log|
  {
    fired[i] in b.kinds && Source(fired[i], log[i], fired[..i], callbacks, b)
  }

  /** None of the expired timers' functions touched `x`. */
  ghost predicate Spared(x: Id, fired: seq<Id>, callbacks: Callbacks) {
    forall i :: 0 <= i < |fired| ==> !Concerns(CallsOf(callbacks, fired[i]), x)
  }

  ghost predicate Progress(fired: seq<Id>, log: seq<Key>, due: set<Id>, keys: map<Id, Key>, callbacks: Callbacks,
                           b: Beginning) {
    && |log| == |fired|
    && (forall x :: x in due ==> x in keys && Source(x, keys[x], fired, callbacks, b))
    && (forall i :: 0 <= i < |fired| ==> Origin(i, fired, log, callbacks, b))
  }

  lemma ProgressStart(callbacks: Callbacks, b: Beginning)
    requires forall x :: x in b.due ==> x in b.keys && b.keys[x].deadline <= b.now
    ensures Progress([], [], b.due, b.keys, callbacks, b) && InOrder([]) && forall key :: Behind([], key)
  {
  }

  lemma SourceMore(x: Id, key: Key, fired: seq<Id>, t: Id, callbacks: Callbacks, b: Beginning)
    requires Source(x, key, fired, callbacks, b)
    ensures Source(x, key, fired + [t], callbacks, b)
  {
    hide StartsNow;
    var more := fired + [t];
    if i :| 0 <= i < |fired| && StartsNow(callbacks, b.kinds, fired[i], x) { assert more[i] == fired[i]; }
  }

  lemma ProgressStep(fired: seq<Id>, log: seq<Key>, due: set<Id>, keys: map<Id, Key>, started: nat,
                     t: Id, due': set<Id>, keys': map<Id, Key>, callbacks: Callbacks, b: Beginning)
    requires Progress(fired, log, due, keys, callbacks, b) && t in due && t in b.kinds && started >= b.started
    requires Expired(t, callbacks, b.kinds, due, keys, started, due', keys', b.now)
    ensures t in keys && Progress(fired + [t], log + [keys[t]], due', keys', callbacks, b)
  {
    ProgressSources(fired, log, due, keys, started, t, due', keys', callbacks, b);
    ProgressOrigins(fired, log, due, keys, t, callbacks, b);
    hide Source, Origin, Expired;
  }

  lemma ProgressSources(fired: seq<Id>, log: seq<Key>, due: set<Id>, keys: map<Id, Key>, started: nat,
                        t: Id, due': set<Id>, keys': map<Id, Key>, callbacks: Callbacks, b: Beginning)
    requires Progress(fired, log, due, keys, callbacks, b) && started >= b.started
    requires Expired(t, callbacks, b.kinds, due, keys, started, due', keys', b.now)
    ensures forall x :: x in due' ==> x in keys' && Source(x, keys'[x], fired + [t], callbacks, b)
  {
    hide StartsNow, Concerns, Origin;
    forall x | x in due'
      ensures x in keys' && Source(x, keys'[x], fired + [t], callbacks, b)
    {
      assert ExpiredAt(x, t, callbacks, b.kinds, due, keys, started, due', keys', b.now);
      if x in due && x != t && x in keys && keys'[x] == keys[x] {
        SourceMore(x, keys[x], fired, t, callbacks, b);
      } else {
        assert (fired + [t])[|fired|] == t;
      }
    }
  }

  lemma ProgressOrigins(fired: seq<Id>, log: seq<Key>, due: set<Id>, keys: map<Id, Key>,
                        t: Id, callbacks: Callbacks, b: Beginning)
    requires Progress(fired, log, due, keys, callbacks, b) && t in due && t in b.kinds
    ensures t in keys && forall i :: 0 <= i <= |fired| ==> Origin(i, fired + [t], log + [keys[t]], callbacks, b)
  {
    hide Source;
    var more, log' := fired + [t], log + [keys[t]];
    forall i | 0 <= i <= |fired|
      ensures Origin(i, more, log', callbacks, b)
    {
      assert more[..i] == fired[..i];
      if i < |fired| {
        assert Origin(i, fired, log, callbacks, b);
        assert more[i] == fired[i] && log'[i] == log[i];
      } else {
        assert fired[..i] == fired;
      }
    }
  }

  lemma ProgressEnd(fired: seq<Id>, log: seq<Key>, keys: map<Id, Key>, callbacks: Callbacks, b: Beginning, p: Spec.Plan)
    requires Progress(fired, log, {}, keys, callbacks, b) && InOrder(log)
    requires Spec.Good(p, b.kinds) && Known(callbacks, b.kinds) && Spec.Ends(p, callbacks, b.kinds)
    requires b.due == Spec.DueIds(p) && EntriesLogged(fired, log) == Spec.AllExpiries(p, callbacks, b.kinds)
    ensures |log| == |fired| && forall i :: 0 <= i < |fired| ==> Origin(i, fired, log, callbacks, b)
    ensures forall x :: x in b.due && Spared(x, fired, callbacks) ==> multiset(fired)[x] == 1
    ensures callbacks == map[] ==> Sorted(fired, b.keys) && forall x :: x in fired <==> x in b.due
  {
    hide Spec.Good, Known, Spec.Ends, Spec.AllExpiries, Spec.DueIds;
    forall x | x in b.due && Spared(x, fired, callbacks)
      ensures multiset(fired)[x] == 1
    {
      Ends.ExpiresOnce(p, callbacks, b.kinds, x);
      CountIsMultiset(fired, log, x);
    }
    if callbacks == map[] { NoCalls(fired, log, callbacks, b); }
  }

  /** Without calls, exactly the due timers expire, in their order. */
  lemma NoCalls(fired: seq<Id>, log: seq<Key>, callbacks: Callbacks, b: Beginning)
    requires callbacks == map[] && |log| == |fired| && InOrder(log)
    requires forall i :: 0 <= i < |fired| ==> Origin(i, fired, log, callbacks, b)
    requires forall x :: x in b.due && Spared(x, fired, callbacks) ==> multiset(fired)[x] == 1
    ensures Sorted(fired, b.keys) && forall x :: x in fired <==> x in b.due
  {
    forall x
      ensures Spared(x, fired, callbacks)
    {
    }
    forall i | 0 <= i < |fired|
      ensures fired[i] in b.due && fired[i] in b.keys && log[i] == b.keys[fired[i]]
    {
      WasDue(fired, log, callbacks, b, i);
    }
  }

  lemma {:induction false} WasDue(fired: seq<Id>, log: seq<Key>, callbacks: Callbacks, b: Beginning, i: nat)
    requires callbacks == map[] && |log| == |fired| && i < |fired|
    requires forall i :: 0 <= i < |fired| ==> Origin(i, fired, log, callbacks, b)
    requires forall x :: x in b.due ==> multiset(fired)[x] == 1
    ensures fired[i] in b.due && fired[i] in b.keys && log[i] == b.keys[fired[i]]
    decreases i
  {
    assert Origin(i, fired, log, callbacks, b);
    if j :| 0 <= j < i && StartsNow(callbacks, b.kinds, fired[..i][j], fired[i]) {
      assert fired[j] == fired[i];
      WasDue(fired, log, callbacks, b, j);
      TwoPlaces(fired, j, i);
    }
  }

  lemma TwoPlaces(fired: seq<Id>, i: nat, j: nat)
    requires i < j < |fired| && fired[i] == fired[j]
    ensures multiset(fired)[fired[i]] >= 2
  {
    var a, c := fired[..j], fired[j..];
    assert fired == a + c && a[i] in a && c[0] in c;
  }

  /** A timer with ticks that expires was due, and at this tick. */
  lemma DueWithTicks(x: Id, key: Key, fired: seq<Id>, callbacks: Callbacks, b: Beginning,
                     row: seq<Id>, timers: map<Id, Timer>, floor: nat)
    requires Source(x, key, fired, callbacks, b) && x in b.kinds && b.now == floor + 1
    requires AllListed(row, timers, b.keys, floor, floor, b.started) && OfKinds(timers, b.kinds)
    requires forall y :: y in b.due ==> y in row
    ensures b.kinds[x].initTick > 0 ==> key.deadline == b.now && x in b.due && x in b.keys && key == b.keys[x]
  {
    if x in b.due { assert Listed(x, timers, b.keys, floor, floor, b.started); }
  }

  ghost predicate Behind(log: seq<Key>, key: Key) {
    forall i :: 0 <= i < |log| ==> Before(log[i], key)
  }

  lemma LogGrows(log: seq<Key>, key: Key, row: seq<Id>, keys: map<Id, Key>)
    requires InOrder(log) && Behind(log, key)
    requires forall id :: id in row ==> id in keys && Before(key, keys[id])
    ensures InOrder(log + [key])
    ensures forall id :: id in row ==> Behind(log + [key], keys[id])
  {
  }

  /** Listed timers stay behind a timer that was in front of them and whose time has come. */
  lemma AgedAfter(row: seq<Id>, keys: map<Id, Key>, started: nat, row': seq<Id>, keys': map<Id, Key>, now: nat,
                  key: Key)
    requires Aged(row, keys, started, row', keys', now)
    requires forall id :: id in row ==> id in keys && Before(key, keys[id])
    requires key.deadline <= now && key.stamp < started
    ensures forall id :: id in row' ==> Before(key, keys'[id])
  {
  }

  lemma AgedSelf(t: Id, row: seq<Id>, keys: map<Id, Key>, started: nat, row': seq<Id>, keys': map<Id, Key>, now: nat)
    requires Aged(row, keys, started, row', keys', now) && t !in row
    ensures t in row' ==> t in keys' && keys'[t].stamp >= started
  {
  }

  /** The same timers, each as periodic as before and with the same period. */
  ghost predicate SameKinds(timers: map<Id, Timer>, timers': map<Id, Timer>) {
    && timers.Keys == timers'.Keys
    && forall id :: id in timers ==>
         timers'[id].periodic == timers[id].periodic && timers'[id].initTick == timers[id].initTick
  }

  lemma AgedNow(row: seq<Id>, timers: map<Id, Timer>, keys: map<Id, Key>, floor: nat, now: nat, started: nat)
    requires AllListed(row, timers, keys, floor, now, started)
    ensures Aged(row, keys, started, row, keys, now)
  {
  }

  lemma AgedStart(row: seq<Id>, timers: map<Id, Timer>, keys: map<Id, Key>, floor: nat, now: nat, started: nat,
                  id: Id, deadline: nat)
    requires AllListed(row, timers, keys, floor, now, started) && deadline >= now
    ensures Aged(row, keys, started, row + [id], keys[id := Key(deadline, started)], now)
  {
  }

  lemma AgedFewer(row: seq<Id>, keys: map<Id, Key>, started: nat, row': seq<Id>, row'': seq<Id>, keys': map<Id, Key>,
                  now: nat)
    requires Aged(row, keys, started, row', keys', now)
    requires forall x :: x in row'' ==> x in row'
    ensures Aged(row, keys, started, row'', keys', now)
  {
  }

  lemma AgedAgain(row: seq<Id>, keys: map<Id, Key>, started: nat, row': seq<Id>, keys': map<Id, Key>, started': nat,
                  row'': seq<Id>, keys'': map<Id, Key>, now: nat)
    requires Aged(row, keys, started, row', keys', now)
    requires Aged(row', keys', started', row'', keys'', now) && started <= started'
    ensures Aged(row, keys, started, row'', keys'', now)
  {
  }

  /** A timer that is not in the bottom row is in no row. */
  lemma OnNoRow(rows: seq<seq<Id>>, keys: map<Id, Key>, id: Id)
    requires SkipList(rows, keys) && |rows| > 0 && id !in rows[|rows| - 1]
    ensures forall r :: 0 <= r < |rows| ==> id !in rows[r]
  {
    hide SkipList;
    forall r | 0 <= r < |rows|
      ensures id !in rows[r]
    {
      if id in rows[r] { InBottomRow(rows, keys, r, id); }
    }
  }

  lemma ArmedListed(row: seq<Id>, id: Id, timers: map<Id, Timer>, keys: map<Id, Key>, floor: nat, now: nat,
                    started: nat, timer: Timer)
    requires AllListed(row, timers, keys, floor, now, started) && id !in row && id in timers
             && floor <= now <= floor + 1
    requires timer.initTick < HALF && timer.timeoutTick == Wrap(now + timer.initTick)
    ensures var keys' := keys[id := Key(now + timer.initTick, started)];
            && AllListed(row, timers[id := timer], keys', floor, now, started + 1)
            && Listed(id, timers[id := timer], keys', floor, now, started + 1)
  {
    hide Wrap;
    forall x | x in row
      ensures Listed(x, timers[id := timer], keys[id := Key(now + timer.initTick, started)], floor, now, started + 1)
    {
      assert Listed(x, timers, keys, floor, now, started);
    }
  }

  /** A skip list does not notice new keys for timers that are not on it. */
  lemma KeysKept(rows: seq<seq<Id>>, id: Id, keys: map<Id, Key>, keys': map<Id, Key>)
    requires SkipList(rows, keys)
    requires forall r :: 0 <= r < |rows| ==> id !in rows[r]
    requires forall x :: x in keys && x != id ==> x in keys' && keys'[x] == keys[x]
    ensures SkipList(rows, keys')
  {
    forall r | 0 <= r < |rows|
      ensures Sorted(rows[r], keys')
    {
      SortedSame(rows[r], keys, keys');
    }
  }
}
