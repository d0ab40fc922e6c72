/** When a check of the timers comes to an end, and what it makes of each timer. */
module TimerEnds {
  import opened Lists
  import opened TimerCalls
  import opened TimerRows
  import opened TimerSpec

  lemma {:induction false} NthGood(p: Plan, n: nat, callbacks: Callbacks, kinds: Kinds)
    requires Good(p, kinds) && Known(callbacks, kinds)
    ensures Good(Nth(p, n, callbacks, kinds), kinds) && Nth(p, n, callbacks, kinds).now == p.now
    ensures Flagged(p, kinds) ==> Flagged(Nth(p, n, callbacks, kinds), kinds)
  {
    hide Good, Known, Flagged, Next;
    if n > 0 {
      NthGood(p, n - 1, callbacks, kinds);
      NextGood(Nth(p, n - 1, callbacks, kinds), callbacks, kinds);
    }
  }

  lemma DueKnown(p: Plan, kinds: Kinds)
    requires Good(p, kinds)
    ensures DueIds(p) <= kinds.Keys
  {
  }

  // ----- without a trap it ends -----

  /** A round stays within a closed set of timers. */
  lemma DueWithin(p: Plan, callbacks: Callbacks, kinds: Kinds, s: set<Id>)
    requires Good(p, kinds) && Known(callbacks, kinds) && DueFirst(p)
    requires DueIds(p) <= s && Closed(callbacks, kinds, s)
    ensures DueIds(Next(p, callbacks, kinds)) <= s
  {
    hide Good, Known, Next, StartsNow;
    DueFirstIff(p, kinds);
    forall x | x in DueIds(Next(p, callbacks, kinds))
      ensures x in s
    {
      DueNext(p, callbacks, kinds, x);
    }
  }

  lemma RoundFalls(p: Plan, callbacks: Callbacks, kinds: Kinds, order: seq<Id>)
    requires Good(p, kinds) && Known(callbacks, kinds) && DueFirst(p)
    requires Downwards(callbacks, kinds, order) && forall x :: x in DueIds(p) ==> x in order
    ensures Weight(order, DueIds(Next(p, callbacks, kinds))) < Weight(order, DueIds(p))
  {
    hide Good, Known, Next, StartsNow, Weight, DueIds;
    var t, due' := p.row[0].id, DueIds(Next(p, callbacks, kinds));
    DueFirstIff(p, kinds);
    var i :| 0 <= i < |order| && order[i] == t;
    forall j | i <= j < |order| && order[j] in due'
      ensures order[j] in DueIds(p) && j > i
    {
      DueNext(p, callbacks, kinds, order[j]);
    }
    WeightFalls(order, DueIds(p), due', i);
  }

  lemma {:induction false} FallsToEnd(p: Plan, callbacks: Callbacks, kinds: Kinds, order: seq<Id>, s: set<Id>)
    returns (n: nat)
    requires Good(p, kinds) && Known(callbacks, kinds)
    requires Downwards(callbacks, kinds, order) && forall x :: x in s ==> x in order
    requires DueIds(p) <= s && Closed(callbacks, kinds, s)
    ensures Over(p, n, callbacks, kinds)
    decreases Weight(order, DueIds(p))
  {
    if !DueFirst(p) {
      n := 0;
    } else {
      hide Good, Known, Next, StartsNow, Weight, DueIds, DueFirst;
      RoundFalls(p, callbacks, kinds, order);
      DueWithin(p, callbacks, kinds, s);
      NextGood(p, callbacks, kinds);
      n := FallsToEnd(Next(p, callbacks, kinds), callbacks, kinds, order, s);
      NthShift(p, n, callbacks, kinds);
      n := n + 1;
    }
  }

  /** A check ends if there is no trap among the timers that the due ones can lead to within the tick. */
  lemma EndsWithoutTrap(p: Plan, callbacks: Callbacks, kinds: Kinds)
    requires Good(p, kinds) && Known(callbacks, kinds)
    requires NoTrapIn(callbacks, kinds, Closure(callbacks, kinds, DueIds(p)))
    ensures Ends(p, callbacks, kinds)
  {
    hide Known, Good, NoTrapIn, Closure, Closed, Downwards, Over;
    var s := Closure(callbacks, kinds, DueIds(p));
    DueKnown(p, kinds);
    ClosureIs(callbacks, kinds, DueIds(p));
    var order := AllInOrder(callbacks, kinds, s);
    var n := FallsToEnd(p, callbacks, kinds, order, s);
  }

  // ----- with a trap that nobody breaks it goes on -----

  ghost predicate Meets(c: set<Id>, due: set<Id>) {
    exists x :: x in c && x in due
  }

  /** Within the set, no function stops another timer or starts one anew that has ticks to wait. */
  ghost predicate Gentle(callbacks: Callbacks, kinds: Kinds, s: set<Id>) {
    forall t, x :: t in s && x in s && t != x && Concerns(CallsOf(callbacks, t), x) ==>
      EndsStarted(CallsOf(callbacks, t), x) && NoTicks(kinds, x)
  }

  /** A trap that can be reached can be reached after another round. */
  lemma TrapStep(p: Plan, callbacks: Callbacks, kinds: Kinds, s: set<Id>, c: set<Id>)
    requires Good(p, kinds) && Known(callbacks, kinds) && Flagged(p, kinds) && DueFirst(p)
    requires DueIds(p) <= s && Closed(callbacks, kinds, s) && Gentle(callbacks, kinds, s)
    requires Trap(callbacks, kinds, c) && Meets(c, Closure(callbacks, kinds, DueIds(p)))
    ensures Meets(c, Closure(callbacks, kinds, DueIds(Next(p, callbacks, kinds))))
  {
    hide Good, Known, Flagged, Next, StartsNow, DueIds, StartsOneOf, Concerns, EndsStarted;
    var t, due' := p.row[0].id, DueIds(Next(p, callbacks, kinds));
    DueFirstIff(p, kinds);
    NextGood(p, callbacks, kinds);
    DueKnown(Next(p, callbacks, kinds), kinds);
    ClosureIs(callbacks, kinds, due');
    var k := Closure(callbacks, kinds, due');
    forall x | x in DueIds(p)
      ensures x in k + {t}
    {
      if x != t { StaysDue(p, callbacks, kinds, x); }
    }
    forall z | StartsNow(callbacks, kinds, t, z)
      ensures z in k
    {
      StartedDue(p, callbacks, kinds, z);
    }
    ClosureLeast(callbacks, kinds, DueIds(p), k + {t});
    var x :| x in c && x in Closure(callbacks, kinds, DueIds(p));
    if x !in k { TrapMember(callbacks, kinds, c, t, k); }
  }

  lemma TrapMember(callbacks: Callbacks, kinds: Kinds, c: set<Id>, t: Id, k: set<Id>)
    requires Trap(callbacks, kinds, c) && t in c && forall z :: StartsNow(callbacks, kinds, t, z) ==> z in k
    ensures Meets(c, k)
  {
    hide StartsNow;
    assert StartsOneOf(callbacks, kinds, t, c);
  }

  lemma NothingReached(callbacks: Callbacks, kinds: Kinds, due: set<Id>, c: set<Id>)
    requires Meets(c, Closure(callbacks, kinds, due))
    ensures exists x :: x in due
  {
    hide StartsNow;
    if forall x :: x !in due {
      assert due <= {} && Closed(callbacks, kinds, {});
      ClosureLeast(callbacks, kinds, due, {});
    }
  }

  lemma {:induction false} TrapGoesOn(p: Plan, callbacks: Callbacks, kinds: Kinds, s: set<Id>, c: set<Id>, n: nat)
    requires Good(p, kinds) && Known(callbacks, kinds) && Flagged(p, kinds)
    requires DueIds(p) <= s && Closed(callbacks, kinds, s) && Gentle(callbacks, kinds, s)
    requires Trap(callbacks, kinds, c) && Meets(c, Closure(callbacks, kinds, DueIds(p)))
    ensures !Over(p, n, callbacks, kinds)
    decreases n
  {
    hide Good, Known, Flagged, Next, DueIds, Closed, Gentle, Trap, Closure, Meets;
    NothingReached(callbacks, kinds, DueIds(p), c);
    DueFirstIff(p, kinds);
    if n > 0 {
      TrapStep(p, callbacks, kinds, s, c);
      DueWithin(p, callbacks, kinds, s);
      NextGood(p, callbacks, kinds);
      TrapGoesOn(Next(p, callbacks, kinds), callbacks, kinds, s, c, n - 1);
      NthShift(p, n - 1, callbacks, kinds);
    }
  }

  /**
   Unless functions stop or put off one another's timers, a check ends if and only if there is no trap among
   the timers that the due ones can lead to within the tick.
   */
  lemma EndsExactly(p: Plan, callbacks: Callbacks, kinds: Kinds)
    requires Good(p, kinds) && Known(callbacks, kinds) && Flagged(p, kinds)
    requires Gentle(callbacks, kinds, Closure(callbacks, kinds, DueIds(p)))
    ensures Ends(p, callbacks, kinds) <==> NoTrapIn(callbacks, kinds, Closure(callbacks, kinds, DueIds(p)))
  {
    hide Known, Good, Flagged, Gentle, Closure, Closed, DueIds;
    var s := Closure(callbacks, kinds, DueIds(p));
    DueKnown(p, kinds);
    ClosureIs(callbacks, kinds, DueIds(p));
    if NoTrapIn(callbacks, kinds, s) {
      EndsWithoutTrap(p, callbacks, kinds);
    } else {
      var c :| c <= s && Trap(callbacks, kinds, c);
      TrapIsMet(callbacks, kinds, c, s);
      forall n: nat
        ensures !Over(p, n, callbacks, kinds)
      {
        TrapGoesOn(p, callbacks, kinds, s, c, n);
      }
    }
  }

  lemma TrapIsMet(callbacks: Callbacks, kinds: Kinds, c: set<Id>, s: set<Id>)
    requires Trap(callbacks, kinds, c) && c <= s
    ensures Meets(c, s)
  {
    hide StartsOneOf;
    var x :| x in c;
  }

  /** The functions of other timers do not leave a timer of the set stopped. */
  ghost predicate Unstopped(callbacks: Callbacks, c: set<Id>) {
    forall t, x :: t !in c && x in c && Concerns(CallsOf(callbacks, t), x) ==> EndsStarted(CallsOf(callbacks, t), x)
  }

  lemma DueTrapStep(p: Plan, callbacks: Callbacks, kinds: Kinds, c: set<Id>)
    requires Good(p, kinds) && Known(callbacks, kinds) && Flagged(p, kinds)
    requires Trap(callbacks, kinds, c) && Unstopped(callbacks, c) && Meets(c, DueIds(p))
    ensures DueFirst(p) && Meets(c, DueIds(Next(p, callbacks, kinds)))
  {
    hide Good, Known, Flagged, Next, StartsNow, DueIds, StartsOneOf, Concerns, EndsStarted;
    DueFirstIff(p, kinds);
    var t := p.row[0].id;
    if t in c {
      forall z | StartsNow(callbacks, kinds, t, z)
        ensures z in DueIds(Next(p, callbacks, kinds))
      {
        StartedDue(p, callbacks, kinds, z);
      }
      TrapMember(callbacks, kinds, c, t, DueIds(Next(p, callbacks, kinds)));
    } else {
      var x :| x in c && x in DueIds(p);
      StaysDue(p, callbacks, kinds, x);
    }
  }

  /** With a timer of a trap due, functions of timers outside the trap have to stop it for the check to end. */
  lemma {:induction false} DueTrapGoesOn(p: Plan, callbacks: Callbacks, kinds: Kinds, c: set<Id>, n: nat)
    requires Good(p, kinds) && Known(callbacks, kinds) && Flagged(p, kinds)
    requires Trap(callbacks, kinds, c) && Unstopped(callbacks, c) && Meets(c, DueIds(p))
    ensures !Over(p, n, callbacks, kinds)
    decreases n
  {
    hide Good, Known, Flagged, Next, DueIds, Unstopped, Trap, Meets;
    DueTrapStep(p, callbacks, kinds, c);
    if n > 0 {
      NextGood(p, callbacks, kinds);
      DueTrapGoesOn(Next(p, callbacks, kinds), callbacks, kinds, c, n - 1);
      NthShift(p, n - 1, callbacks, kinds);
    }
  }

  // ----- a number of rounds after which it is over or never will be -----

  /** The sequences of at most `n` elements of a set. */
  ghost function Lines(s: set<Entry>, n: nat): (lines: set<seq<Entry>>) {
    if n == 0 then {[]}
    else Lines(s, n - 1) + (set q, e | q in Lines(s, n - 1) && e in s :: q + [e])
  }

  lemma {:induction false} InLines(row: seq<Entry>, s: set<Entry>, n: nat)
    requires |row| <= n && forall e :: e in row ==> e in s
    ensures row in Lines(s, n)
  {
    if n > 0 {
      if |row| < n {
        InLines(row, s, n - 1);
      } else {
        var q, e := row[..n - 1], row[n - 1];
        assert row == q + [e] && e in row;
        InLines(q, s, n - 1);
      }
    }
  }

  /** The entries that a check can meet: those there are, and those that starts at this tick make. */
  ghost function Possible(p: Plan, kinds: Kinds): (s: set<Entry>) {
    (set e | e in p.row) + (set x | x in kinds :: Entry(x, DeadlineOf(p, x, kinds)))
  }

  /** The plans that a check can go through. */
  ghost function Plans(p: Plan, kinds: Kinds): (s: set<Plan>) {
    var rows, all := Lines(Possible(p, kinds), |kinds|), p.active + kinds.Keys;
    set row, active | row in rows && active <= all :: Plan(row, active, p.now)
  }

  ghost predicate Stays(p: Plan, q: Plan, kinds: Kinds) {
    && q.now == p.now && q.active <= p.active + kinds.Keys
    && forall e :: e in q.row ==> e in Possible(p, kinds)
  }

  lemma StaysInPlans(p: Plan, q: Plan, kinds: Kinds)
    requires Good(q, kinds) && Stays(p, q, kinds)
    ensures q in Plans(p, kinds)
  {
    var ids := seq(|q.row|, i requires 0 <= i < |q.row| => q.row[i].id);
    forall x | x in ids
      ensures x in kinds.Keys
    {
      var i :| 0 <= i < |ids| && ids[i] == x;
      assert q.row[i] in q.row;
    }
    DistinctFit(ids, kinds.Keys);
    assert |kinds| == |kinds.Keys|;
    InLines(q.row, Possible(p, kinds), |kinds|);
    hide Possible, Lines;
    assert q == Plan(q.row, q.active, p.now);
  }

  lemma StartedStays(p: Plan, q: Plan, x: Id, kinds: Kinds)
    requires Stays(p, q, kinds) && x in kinds
    ensures Stays(p, Started(q, x, kinds), kinds)
  {
    assert DeadlineOf(q, x, kinds) == DeadlineOf(p, x, kinds);
    hide DeadlineOf;
  }

  lemma {:induction false} CalledStays(p: Plan, q: Plan, calls: seq<Call>, kinds: Kinds)
    requires Stays(p, q, kinds) && forall c :: c in calls ==> c.id in kinds
    ensures Stays(p, CalledAll(q, calls, kinds), kinds)
  {
    if calls != [] {
      hide Started, Possible;
      var n := |calls| - 1;
      var c := calls[n];
      assert c in calls;
      CalledStays(p, q, calls[..n], kinds);
      if c.StartCall? { StartedStays(p, CalledAll(q, calls[..n], kinds), c.id, kinds); }
    }
  }

  lemma NextStays(p: Plan, q: Plan, callbacks: Callbacks, kinds: Kinds)
    requires Stays(p, q, kinds) && Good(q, kinds) && Known(callbacks, kinds)
    ensures Stays(p, Next(q, callbacks, kinds), kinds)
  {
    if DueFirst(q) {
      var t, rest := q.row[0].id, q.(row := q.row[1..]);
      assert q.row[0] in q.row;
      KnownCalls(callbacks, kinds, t);
      hide Possible, CalledAll, Started, Known;
      assert Stays(p, rest, kinds);
      CalledStays(p, rest, CallsOf(callbacks, t), kinds);
      StartedStays(p, CalledAll(rest, CallsOf(callbacks, t), kinds), t, kinds);
    }
  }

  lemma StaysItself(p: Plan, kinds: Kinds)
    ensures Stays(p, p, kinds)
  {
  }

  lemma {:induction false} NthStays(p: Plan, n: nat, callbacks: Callbacks, kinds: Kinds)
    requires Good(p, kinds) && Known(callbacks, kinds)
    ensures Stays(p, Nth(p, n, callbacks, kinds), kinds)
  {
    hide Good, Known, Next, Stays;
    if n == 0 {
      StaysItself(p, kinds);
    } else {
      NthStays(p, n - 1, callbacks, kinds);
      NthGood(p, n - 1, callbacks, kinds);
      NextStays(p, Nth(p, n - 1, callbacks, kinds), callbacks, kinds);
    }
  }

  /** A check that comes back to where it was goes on forever, unless it was over by then. */
  lemma {:induction false} RepeatIsOver(p: Plan, i: nat, j: nat, n: nat, callbacks: Callbacks, kinds: Kinds)
    requires i < j && Nth(p, i, callbacks, kinds) == Nth(p, j, callbacks, kinds) && Over(p, n, callbacks, kinds)
    ensures Over(p, i, callbacks, kinds)
    decreases n
  {
    hide DueFirst, Next;
    if n <= i {
      OverStays(p, n, i, callbacks, kinds);
    } else if n < j {
      OverStays(p, n, j, callbacks, kinds);
    } else {
      NthSum(p, j, n - j, callbacks, kinds);
      NthSum(p, i, n - j, callbacks, kinds);
      RepeatIsOver(p, i, j, i + n - j, callbacks, kinds);
    }
  }

  lemma {:induction false} FirstOver(p: Plan, n: nat, callbacks: Callbacks, kinds: Kinds) returns (m: nat)
    requires Over(p, n, callbacks, kinds)
    ensures m <= n && Over(p, m, callbacks, kinds) && forall k: nat :: k < m ==> !Over(p, k, callbacks, kinds)
  {
    hide Over;
    if k: nat :| k < n && Over(p, k, callbacks, kinds) {
      m := FirstOver(p, k, callbacks, kinds);
    } else {
      m := n;
    }
  }

  /** A check that ends is over after as many rounds as there are plans it can go through. */
  lemma EndsInTime(p: Plan, callbacks: Callbacks, kinds: Kinds)
    requires Good(p, kinds) && Known(callbacks, kinds)
    ensures Ends(p, callbacks, kinds) <==> Over(p, |Plans(p, kinds)|, callbacks, kinds)
  {
    hide Good, Known, Next, Plans, Over;
    if n: nat :| Over(p, n, callbacks, kinds) {
      var m := FirstOver(p, n, callbacks, kinds);
      var path := seq(m, i requires 0 <= i < m => Nth(p, i, callbacks, kinds));
      forall i, j | 0 <= i < j < m
        ensures path[i] != path[j]
      {
        if path[i] == path[j] { RepeatIsOver(p, i, j, n, callbacks, kinds); }
      }
      forall q | q in path
        ensures q in Plans(p, kinds)
      {
        var i :| 0 <= i < |path| && path[i] == q;
        NthStays(p, i, callbacks, kinds);
        NthGood(p, i, callbacks, kinds);
        StaysInPlans(p, q, kinds);
      }
      DistinctFit(path, Plans(p, kinds));
      OverAfter(p, m, |Plans(p, kinds)|, callbacks, kinds);
    }
  }

  lemma OverAfter(p: Plan, m: nat, n: nat, callbacks: Callbacks, kinds: Kinds)
    requires Over(p, m, callbacks, kinds) && m <= n
    ensures Over(p, n, callbacks, kinds)
  {
    OverStays(p, m, n, callbacks, kinds);
  }

  // ----- each timer in a check -----

  ghost function CountOf(es: seq<Entry>, x: Id): (n: nat) {
    if es == [] then 0 else CountOf(es[..|es| - 1], x) + if es[|es| - 1].id == x then 1 else 0
  }

  /** None of the expired timers' functions touched `x`. */
  ghost predicate Untouched(es: seq<Entry>, callbacks: Callbacks, x: Id) {
    forall i :: 0 <= i < |es| ==> !Concerns(CallsOf(callbacks, es[i].id), x)
  }

  /** A timer that goes again at once is due; any other has expired once or is still due. */
  ghost predicate OnceOrDue(es: seq<Entry>, q: Plan, kinds: Kinds, x: Id) {
    if NoTicks(kinds, x) && kinds[x].periodic && x in q.active then x in DueIds(q)
    else if x in DueIds(q) then CountOf(es, x) == 0
    else CountOf(es, x) == 1
  }

  lemma {:induction false} OnceAfter(p: Plan, n: nat, callbacks: Callbacks, kinds: Kinds, x: Id)
    requires Good(p, kinds) && Known(callbacks, kinds) && x in DueIds(p)
    requires Untouched(Expiries(p, n, callbacks, kinds), callbacks, x)
    ensures OnceOrDue(Expiries(p, n, callbacks, kinds), Nth(p, n, callbacks, kinds), kinds, x)
  {
    hide Good, Known, Next, DueIds, Concerns, Nth, Expiries, Untouched, CountOf;
    if n > 0 {
      var es, q := Expiries(p, n - 1, callbacks, kinds), Nth(p, n - 1, callbacks, kinds);
      NthGood(p, n - 1, callbacks, kinds);
      OneMore(p, n - 1, callbacks, kinds);
      if DueFirst(q) {
        UntouchedLess(es, q.row[0], callbacks, x);
        OnceAfter(p, n - 1, callbacks, kinds, x);
        OnceStep(es, q, callbacks, kinds, x);
      } else {
        OnceAfter(p, n - 1, callbacks, kinds, x);
      }
    } else {
      NoneYet(p, callbacks, kinds);
    }
  }

  lemma UntouchedLess(es: seq<Entry>, e: Entry, callbacks: Callbacks, x: Id)
    requires Untouched(es + [e], callbacks, x)
    ensures Untouched(es, callbacks, x) && !Concerns(CallsOf(callbacks, e.id), x)
  {
    var more := es + [e];
    assert more[|es|] == e && forall i :: 0 <= i < |es| ==> more[i] == es[i];
  }

  lemma OnceStep(es: seq<Entry>, q: Plan, callbacks: Callbacks, kinds: Kinds, x: Id)
    requires Good(q, kinds) && Known(callbacks, kinds) && DueFirst(q) && OnceOrDue(es, q, kinds, x)
    requires !Concerns(CallsOf(callbacks, q.row[0].id), x)
    ensures OnceOrDue(es + [q.row[0]], Next(q, callbacks, kinds), kinds, x)
  {
    var t, r := q.row[0].id, Next(q, callbacks, kinds);
    var more := es + [q.row[0]];
    assert more[..|more| - 1] == es;
    NextGood(q, callbacks, kinds);
    DueFirstIff(q, kinds);
    StartConcerns(CallsOf(callbacks, t), x);
    assert q.row[0] in q.row;
    hide Known, Next, DueIds, Concerns, EndsStarted;
    if x == t {
      NextSelf(q, callbacks, kinds);
      hide Good;
      if GoesAgain(q, callbacks, kinds, t) {
        IsDue(r, t, DeadlineOf(q, t, kinds));
      } else if t in DueIds(r) {
        NotListedNotDue(r, t);
      }
    } else {
      NextOther(q, callbacks, kinds, x);
      SameDue(q, r, x);
    }
  }

  /** A timer that was due and that no expired function touched expires exactly once. */
  lemma ExpiresOnce(p: Plan, callbacks: Callbacks, kinds: Kinds, x: Id)
    requires Good(p, kinds) && Known(callbacks, kinds) && Ends(p, callbacks, kinds) && x in DueIds(p)
    requires Untouched(AllExpiries(p, callbacks, kinds), callbacks, x)
    ensures CountOf(AllExpiries(p, callbacks, kinds), x) == 1
  {
    hide Good, Known, Next, DueIds, Untouched, CountOf;
    var n: nat :| Over(p, n, callbacks, kinds);
    FinishedIs(p, n, callbacks, kinds);
    OnceAfter(p, n, callbacks, kinds, x);
    NthGood(p, n, callbacks, kinds);
    DueFirstIff(Nth(p, n, callbacks, kinds), kinds);
  }

  /** None of the expired timers leaves `x` started for this tick. */
  ghost predicate NoneStarts(es: seq<Entry>, callbacks: Callbacks, kinds: Kinds, x: Id) {
    forall i :: 0 <= i < |es| ==> !StartsNow(callbacks, kinds, es[i].id, x)
  }

  /** A timer that is not due stays so until an expiry leaves it started for this tick. */
  lemma {:induction false} NotDueUntilStarted(p: Plan, n: nat, callbacks: Callbacks, kinds: Kinds, x: Id)
    requires Good(p, kinds) && Known(callbacks, kinds) && x !in DueIds(p)
    requires NoneStarts(Expiries(p, n, callbacks, kinds), callbacks, kinds, x)
    ensures x !in DueIds(Nth(p, n, callbacks, kinds))
    ensures CountOf(Expiries(p, n, callbacks, kinds), x) == 0
  {
    hide Good, Known, Next, DueIds, StartsNow, Nth, Expiries;
    if n > 0 {
      var es, q := Expiries(p, n - 1, callbacks, kinds), Nth(p, n - 1, callbacks, kinds);
      NthGood(p, n - 1, callbacks, kinds);
      OneMore(p, n - 1, callbacks, kinds);
      if DueFirst(q) {
        NoneStartsLess(es, q.row[0], callbacks, kinds, x);
        NotDueUntilStarted(p, n - 1, callbacks, kinds, x);
        NotDueStep(es, q, callbacks, kinds, x);
      } else {
        NotDueUntilStarted(p, n - 1, callbacks, kinds, x);
      }
    } else {
      NoneYet(p, callbacks, kinds);
    }
  }

  lemma NoneYet(p: Plan, callbacks: Callbacks, kinds: Kinds)
    ensures Nth(p, 0, callbacks, kinds) == p && Expiries(p, 0, callbacks, kinds) == []
    ensures forall x :: CountOf([], x) == 0
  {
  }

  lemma NoneStartsLess(es: seq<Entry>, e: Entry, callbacks: Callbacks, kinds: Kinds, x: Id)
    requires NoneStarts(es + [e], callbacks, kinds, x)
    ensures NoneStarts(es, callbacks, kinds, x) && !StartsNow(callbacks, kinds, e.id, x)
  {
    hide StartsNow;
    var more := es + [e];
    assert more[|es|] == e && forall i :: 0 <= i < |es| ==> more[i] == es[i];
  }

  lemma NotDueStep(es: seq<Entry>, q: Plan, callbacks: Callbacks, kinds: Kinds, x: Id)
    requires Good(q, kinds) && Known(callbacks, kinds) && DueFirst(q) && x !in DueIds(q) && CountOf(es, x) == 0
    requires !StartsNow(callbacks, kinds, q.row[0].id, x)
    ensures x !in DueIds(Next(q, callbacks, kinds)) && CountOf(es + [q.row[0]], x) == 0
  {
    hide Known, Next, StartsNow, DueIds;
    var more := es + [q.row[0]];
    assert more[..|more| - 1] == es;
    DueFirstIff(q, kinds);
    if x in DueIds(Next(q, callbacks, kinds)) { DueNext(q, callbacks, kinds, x); }
  }

  /** A timer that a function leaves stopped is not due after it, if it was flagged while it was listed. */
  lemma StoppedNotDue(p: Plan, callbacks: Callbacks, kinds: Kinds, x: Id)
    requires Good(p, kinds) && DueFirst(p) && Marked(p, x)
    requires var calls := CallsOf(callbacks, p.row[0].id); Concerns(calls, x) && !EndsStarted(calls, x)
    ensures x !in DueIds(Next(p, callbacks, kinds))
  {
    hide Next, Concerns, EndsStarted;
    var q := Next(p, callbacks, kinds);
    if x == p.row[0].id { NextSelf(p, callbacks, kinds); } else { NextOther(p, callbacks, kinds, x); }
    assert !OnList(q.row, x);
    if x in DueIds(q) { NotListedNotDue(q, x); }
  }

  /** Such a timer does not expire unless it is started again. */
  lemma StoppedDoesNotExpire(p: Plan, n: nat, callbacks: Callbacks, kinds: Kinds, x: Id)
    requires Good(p, kinds) && Known(callbacks, kinds) && DueFirst(p) && Marked(p, x)
    requires var calls := CallsOf(callbacks, p.row[0].id); Concerns(calls, x) && !EndsStarted(calls, x)
    requires NoneStarts(Expiries(Next(p, callbacks, kinds), n, callbacks, kinds), callbacks, kinds, x)
    ensures CountOf(Expiries(Next(p, callbacks, kinds), n, callbacks, kinds), x) == 0
  {
    hide Good, Known, Next, DueIds, NoneStarts;
    StoppedNotDue(p, callbacks, kinds, x);
    NextGood(p, callbacks, kinds);
    NotDueUntilStarted(Next(p, callbacks, kinds), n, callbacks, kinds, x);
  }

  // ----- runs -----

  lemma FinishedGood(p: Plan, callbacks: Callbacks, kinds: Kinds)
    requires Good(p, kinds) && Known(callbacks, kinds) && Ends(p, callbacks, kinds)
    ensures Good(Finished(p, callbacks, kinds), kinds) && Finished(p, callbacks, kinds).now == p.now
    ensures Flagged(p, kinds) ==> Flagged(Finished(p, callbacks, kinds), kinds)
  {
    hide Good, Known, Flagged;
    var n: nat :| Over(p, n, callbacks, kinds);
    FinishedIs(p, n, callbacks, kinds);
    NthGood(p, n, callbacks, kinds);
  }

  lemma AfterGood(p: Plan, op: Op, kinds: Kinds)
    requires Good(p, kinds) && Completes(p, op, kinds)
    ensures Good(After(p, op, kinds), kinds)
    ensures Flagged(p, kinds) ==> Flagged(After(p, op, kinds), kinds)
  {
    match op
    case StartOp(id) => StartedGood(p, id, kinds);
    case StopOp(id) => StoppedGood(p, id, kinds);
    case TickOp(callbacks) =>
      assert Good(Ticked(p), kinds) && (Flagged(p, kinds) ==> Flagged(Ticked(p), kinds));
      hide Good, Flagged, Known;
      FinishedGood(Ticked(p), callbacks, kinds);
  }

  lemma {:induction false} RanGood(p: Plan, ops: seq<Op>, kinds: Kinds)
    requires Good(p, kinds) && AllComplete(p, ops, kinds)
    ensures Good(Ran(p, ops, kinds), kinds)
    ensures Flagged(p, kinds) ==> Flagged(Ran(p, ops, kinds), kinds)
  {
    hide Good, Flagged, Completes, After;
    if ops != [] {
      var n := |ops| - 1;
      var less := ops[..n];
      assert forall i :: 0 <= i < n ==> less[..i] == ops[..i];
      RanGood(p, less, kinds);
      AfterGood(Ran(p, less, kinds), ops[n], kinds);
    }
  }

  /** Timers that cannot trap one another at any tick let every run complete. */
  ghost predicate Harmless(op: Op, kinds: Kinds) {
    match op
    case StartOp(id) => id in kinds
    case StopOp(id) => id in kinds
    case TickOp(callbacks) => Known(callbacks, kinds) && NoTrapIn(callbacks, kinds, kinds.Keys)
  }

  lemma OneMoreCompletes(p: Plan, ops: seq<Op>, op: Op, kinds: Kinds)
    requires AllComplete(p, ops, kinds) && Completes(Ran(p, ops, kinds), op, kinds)
    ensures AllComplete(p, ops + [op], kinds)
  {
    hide Completes, Ran;
    var more := ops + [op];
    forall i | 0 <= i < |more|
      ensures Completes(Ran(p, more[..i], kinds), more[i], kinds)
    {
      if i < |ops| {
        assert more[..i] == ops[..i] && more[i] == ops[i];
      } else {
        assert more[..i] == ops;
      }
    }
  }

  lemma {:induction false} HarmlessCompletes(p: Plan, ops: seq<Op>, kinds: Kinds)
    requires Good(p, kinds) && forall i :: 0 <= i < |ops| ==> Harmless(ops[i], kinds)
    ensures AllComplete(p, ops, kinds)
  {
    if ops != [] {
      hide Good, Completes, Harmless, AllComplete, Ran;
      var n := |ops| - 1;
      var less := ops[..n];
      HarmlessCompletes(p, less, kinds);
      RanGood(p, less, kinds);
      HarmlessOp(Ran(p, less, kinds), ops[n], kinds);
      OneMoreCompletes(p, less, ops[n], kinds);
      assert less + [ops[n]] == ops;
    }
  }

  lemma HarmlessOp(p: Plan, op: Op, kinds: Kinds)
    requires Good(p, kinds) && Harmless(op, kinds)
    ensures Completes(p, op, kinds)
  {
    if op.TickOp? {
      hide Known, Trap;
      assert Good(Ticked(p), kinds);
      hide Good;
      assert Closure(op.callbacks, kinds, DueIds(Ticked(p))) <= kinds.Keys;
      EndsWithoutTrap(Ticked(p), op.callbacks, kinds);
    }
  }

  // ----- examples -----

  /**
   No function stops a timer, and the due timers lead to one that starts itself again and again, yet the check
   ends: the timer that would start it is put off before it expires.
   */
  lemma PutOffEnds()
    ensures var kinds: Kinds := map[0 := Kind(1, false), 1 := Kind(1, false), 2 := Kind(0, false)];
            var callbacks: Callbacks := map[0 := [StartCall(1)], 1 := [StartCall(2)], 2 := [StartCall(2)]];
            var p := Plan([Entry(0, 1), Entry(1, 1)], {0, 1}, 1);
            && Good(p, kinds) && Flagged(p, kinds) && Known(callbacks, kinds)
            && !NoTrapIn(callbacks, kinds, Closure(callbacks, kinds, DueIds(p)))
            && Ends(p, callbacks, kinds)
  {
    var kinds: Kinds := map[0 := Kind(1, false), 1 := Kind(1, false), 2 := Kind(0, false)];
    var callbacks: Callbacks := map[0 := [StartCall(1)], 1 := [StartCall(2)], 2 := [StartCall(2)]];
    var p := Plan([Entry(0, 1), Entry(1, 1)], {0, 1}, 1);
    assert Entry(1, 1) in p.row && 1 in DueIds(p);
    assert Good(p, kinds) && Flagged(p, kinds) && Known(callbacks, kinds);
    hide Good, Flagged, Known, DueIds;
    PutOff(p, callbacks, kinds);
    LedToTrap(p, callbacks, kinds);
  }

  lemma LedToTrap(p: Plan, callbacks: Callbacks, kinds: Kinds)
    requires Good(p, kinds) && 1 in DueIds(p) && NoTicks(kinds, 2)
    requires CallsOf(callbacks, 1) == [StartCall(2)] && CallsOf(callbacks, 2) == [StartCall(2)]
    ensures !NoTrapIn(callbacks, kinds, Closure(callbacks, kinds, DueIds(p)))
  {
    hide Good, DueIds, Closure;
    assert StartsNow(callbacks, kinds, 1, 2) && StartsNow(callbacks, kinds, 2, 2);
    hide StartsNow;
    DueKnown(p, kinds);
    ClosureIs(callbacks, kinds, DueIds(p));
    assert StartsOneOf(callbacks, kinds, 2, {2});
    assert Trap(callbacks, kinds, {2});
    assert {2} <= Closure(callbacks, kinds, DueIds(p));
  }

  lemma PutOff(p: Plan, callbacks: Callbacks, kinds: Kinds)
    requires 1 in kinds && kinds[1].initTick == 1 && 0 in kinds && !kinds[0].periodic
    requires p == Plan([Entry(0, 1), Entry(1, 1)], {0, 1}, 1) && CallsOf(callbacks, 0) == [StartCall(1)]
    ensures Ends(p, callbacks, kinds)
  {
    var q := p.(row := p.row[1..]);
    assert q.row == [Entry(1, 1)] && Off(q.row, 1) == [];
    assert Placed([], Entry(1, 2)) == [Entry(1, 2)];
    assert Started(q, 1, kinds).row == [Entry(1, 2)];
    assert CalledAll(q, [], kinds) == q && [StartCall(1)][..0] == [];
    assert CalledAll(q, [StartCall(1)], kinds) == Started(q, 1, kinds);
    assert Next(p, callbacks, kinds).row == [Entry(1, 2)];
    assert Nth(p, 1, callbacks, kinds) == Next(p, callbacks, kinds);
    assert Over(p, 1, callbacks, kinds);
  }
}
