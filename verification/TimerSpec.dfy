/**
 The timer list as its callers see it: the started timers by deadline and, among equal deadlines, by start.

 Everything a timer does is a function of the list here; the skip list is proved to follow it step by step.
 */
module TimerSpec {
  import opened TimerCalls
  import opened TimerRows

  datatype Entry = Entry(id: Id, deadline: nat)

  /** The list, the timers flagged as activated, and the time. */
  datatype Plan = Plan(row: seq<Entry>, active: set<Id>, now: nat)

  // ----- operations -----

  /** The list without a timer. */
  ghost function Off(row: seq<Entry>, x: Id): (r: seq<Entry>)
    ensures forall e :: e in r <==> e in row && e.id != x
  {
    if row == [] then []
    else if row[0].id == x then Off(row[1..], x)
    else [row[0]] + Off(row[1..], x)
  }

  /** How many entries from the front on are due no later than `deadline`. */
  ghost function PlaceOf(row: seq<Entry>, deadline: nat): (p: nat)
    ensures p <= |row| && (p < |row| ==> row[p].deadline > deadline)
    ensures forall i :: 0 <= i < p ==> row[i].deadline <= deadline
  {
    if row == [] || row[0].deadline > deadline then 0 else 1 + PlaceOf(row[1..], deadline)
  }

  /** The list with an entry behind all that are due no later. */
  ghost function Placed(row: seq<Entry>, e: Entry): (r: seq<Entry>)
    ensures forall x :: x in r <==> x in row || x == e
  {
    var p := PlaceOf(row, e.deadline);
    assert row == row[..p] + row[p..];
    row[..p] + [e] + row[p..]
  }

  ghost function DeadlineOf(p: Plan, x: Id, kinds: Kinds): (d: nat) {
    p.now + if x in kinds then kinds[x].initTick else 0
  }

  ghost function Started(p: Plan, x: Id, kinds: Kinds): (q: Plan) {
    p.(row := Placed(Off(p.row, x), Entry(x, DeadlineOf(p, x, kinds))), active := p.active + {x})
  }

  ghost function Stopped(p: Plan, x: Id): (q: Plan) {
    if x in p.active then p.(row := Off(p.row, x), active := p.active - {x}) else p
  }

  ghost function Called(p: Plan, c: Call, kinds: Kinds): (q: Plan) {
    match c
    case StartCall(id) => Started(p, id, kinds)
    case StopCall(id) => Stopped(p, id)
  }

  ghost function CalledAll(p: Plan, calls: seq<Call>, kinds: Kinds): (q: Plan) {
    if calls == [] then p
    else Called(CalledAll(p, calls[..|calls| - 1], kinds), calls[|calls| - 1], kinds)
  }

  /** What becomes of a timer after its timeout function: a periodic one that is active starts again. */
  ghost function Settled(p: Plan, t: Id, kinds: Kinds): (q: Plan) {
    if t in kinds && kinds[t].periodic && t in p.active then Started(p, t, kinds)
    else p.(active := p.active - {t})
  }

  ghost predicate DueFirst(p: Plan) {
    p.row != [] && p.row[0].deadline <= p.now
  }

  /** One round of a check: the first timer expires if it is due. */
  ghost function Next(p: Plan, callbacks: Callbacks, kinds: Kinds): (q: Plan) {
    if DueFirst(p) then
      var t := p.row[0].id;
      Settled(CalledAll(p.(row := p.row[1..]), CallsOf(callbacks, t), kinds), t, kinds)
    else p
  }

  // ----- a whole check -----

  ghost function Nth(p: Plan, n: nat, callbacks: Callbacks, kinds: Kinds): (q: Plan) {
    if n == 0 then p else Next(Nth(p, n - 1, callbacks, kinds), callbacks, kinds)
  }

  /** What expires in the first `n` rounds. */
  ghost function Expiries(p: Plan, n: nat, callbacks: Callbacks, kinds: Kinds): (es: seq<Entry>) {
    if n == 0 then []
    else
      var q := Nth(p, n - 1, callbacks, kinds);
      Expiries(p, n - 1, callbacks, kinds) + if DueFirst(q) then [q.row[0]] else []
  }

  ghost predicate Over(p: Plan, n: nat, callbacks: Callbacks, kinds: Kinds) {
    !DueFirst(Nth(p, n, callbacks, kinds))
  }

  /** A check that begins like this comes to an end. */
  ghost predicate Ends(p: Plan, callbacks: Callbacks, kinds: Kinds) {
    exists n: nat :: Over(p, n, callbacks, kinds)
  }

  /** What a check that ends leaves behind. */
  ghost function Finished(p: Plan, callbacks: Callbacks, kinds: Kinds): (q: Plan)
    requires Ends(p, callbacks, kinds)
  {
    var n: nat :| Over(p, n, callbacks, kinds);
    Nth(p, n, callbacks, kinds)
  }

  /** What expires in a check that ends. */
  ghost function AllExpiries(p: Plan, callbacks: Callbacks, kinds: Kinds): (es: seq<Entry>)
    requires Ends(p, callbacks, kinds)
  {
    var n: nat :| Over(p, n, callbacks, kinds);
    Expiries(p, n, callbacks, kinds)
  }

  /** Once over, a check stays as it is. */
  lemma {:induction false} OverStays(p: Plan, n: nat, m: nat, callbacks: Callbacks, kinds: Kinds)
    requires Over(p, n, callbacks, kinds) && n <= m
    ensures Nth(p, m, callbacks, kinds) == Nth(p, n, callbacks, kinds)
    ensures Expiries(p, m, callbacks, kinds) == Expiries(p, n, callbacks, kinds)
    decreases m
  {
    if n < m { OverStays(p, n, m - 1, callbacks, kinds); }
  }

  /** One more round. */
  lemma OneMore(p: Plan, n: nat, callbacks: Callbacks, kinds: Kinds)
    ensures var q := Nth(p, n, callbacks, kinds);
            && Nth(p, n + 1, callbacks, kinds) == Next(q, callbacks, kinds)
            && (DueFirst(q) ==>
                  Expiries(p, n + 1, callbacks, kinds) == Expiries(p, n, callbacks, kinds) + [q.row[0]])
            && (!DueFirst(q) ==>
                  && Nth(p, n + 1, callbacks, kinds) == q
                  && Expiries(p, n + 1, callbacks, kinds) == Expiries(p, n, callbacks, kinds))
  {
    var es := Expiries(p, n, callbacks, kinds);
    assert es + [] == es;
  }

  /** It does not matter how the number of rounds is chosen. */
  lemma FinishedIs(p: Plan, n: nat, callbacks: Callbacks, kinds: Kinds)
    requires Over(p, n, callbacks, kinds)
    ensures Ends(p, callbacks, kinds)
    ensures Finished(p, callbacks, kinds) == Nth(p, n, callbacks, kinds)
    ensures AllExpiries(p, callbacks, kinds) == Expiries(p, n, callbacks, kinds)
  {
    forall m: nat | Over(p, m, callbacks, kinds)
      ensures Nth(p, m, callbacks, kinds) == Nth(p, n, callbacks, kinds)
      ensures Expiries(p, m, callbacks, kinds) == Expiries(p, n, callbacks, kinds)
    {
      if n <= m { OverStays(p, n, m, callbacks, kinds); } else { OverStays(p, m, n, callbacks, kinds); }
    }
  }

  lemma {:induction false} NthShift(p: Plan, n: nat, callbacks: Callbacks, kinds: Kinds)
    ensures Nth(Next(p, callbacks, kinds), n, callbacks, kinds) == Nth(p, n + 1, callbacks, kinds)
  {
    if n > 0 { NthShift(p, n - 1, callbacks, kinds); }
  }

  lemma {:induction false} NthSum(p: Plan, m: nat, n: nat, callbacks: Callbacks, kinds: Kinds)
    ensures Nth(Nth(p, m, callbacks, kinds), n, callbacks, kinds) == Nth(p, m + n, callbacks, kinds)
    decreases n
  {
    if n > 0 { NthSum(p, m, n - 1, callbacks, kinds); }
  }

  // ----- runs -----

  datatype Op = StartOp(id: Id) | StopOp(id: Id) | TickOp(callbacks: Callbacks)

  /** What expired, and at which tick. */
  datatype Expiry = Expiry(entry: Entry, at: nat)

  ghost function Ticked(p: Plan): (q: Plan) {
    p.(now := p.now + 1)
  }

  /** An operation that comes to an end. */
  ghost predicate Completes(p: Plan, op: Op, kinds: Kinds) {
    match op
    case StartOp(id) => id in kinds
    case StopOp(id) => id in kinds
    case TickOp(callbacks) => Known(callbacks, kinds) && Ends(Ticked(p), callbacks, kinds)
  }

  ghost function After(p: Plan, op: Op, kinds: Kinds): (q: Plan) {
    match op
    case StartOp(id) => Started(p, id, kinds)
    case StopOp(id) => Stopped(p, id)
    case TickOp(callbacks) =>
      if Ends(Ticked(p), callbacks, kinds) then Finished(Ticked(p), callbacks, kinds) else Ticked(p)
  }

  ghost function ExpiriesAt(es: seq<Entry>, at: nat): (log: seq<Expiry>) {
    seq(|es|, i requires 0 <= i < |es| => Expiry(es[i], at))
  }

  ghost function LogOf(p: Plan, op: Op, kinds: Kinds): (log: seq<Expiry>) {
    if op.TickOp? && Ends(Ticked(p), op.callbacks, kinds) then
      ExpiriesAt(AllExpiries(Ticked(p), op.callbacks, kinds), p.now + 1)
    else []
  }

  ghost function Ran(p: Plan, ops: seq<Op>, kinds: Kinds): (q: Plan) {
    if ops == [] then p else After(Ran(p, ops[..|ops| - 1], kinds), ops[|ops| - 1], kinds)
  }

  /** Everything that expires in a run. */
  ghost function Log(p: Plan, ops: seq<Op>, kinds: Kinds): (log: seq<Expiry>) {
    if ops == [] then []
    else
      var n := |ops| - 1;
      Log(p, ops[..n], kinds) + LogOf(Ran(p, ops[..n], kinds), ops[n], kinds)
  }

  ghost predicate AllComplete(p: Plan, ops: seq<Op>, kinds: Kinds) {
    forall i :: 0 <= i < |ops| ==> Completes(Ran(p, ops[..i], kinds), ops[i], kinds)
  }

  lemma RanMore(p: Plan, ops: seq<Op>, kinds: Kinds, i: nat)
    requires i < |ops|
    ensures Ran(p, ops[..i + 1], kinds) == After(Ran(p, ops[..i], kinds), ops[i], kinds)
    ensures Log(p, ops[..i + 1], kinds) == Log(p, ops[..i], kinds) + LogOf(Ran(p, ops[..i], kinds), ops[i], kinds)
  {
    var more := ops[..i + 1];
    assert more[..|more| - 1] == ops[..i] && more[|more| - 1] == ops[i];
  }

  // ----- lists in order -----

  ghost predicate ByDeadline(row: seq<Entry>) {
    forall i, j :: 0 <= i < j < |row| ==> row[i].deadline <= row[j].deadline && row[i].id != row[j].id
  }

  /** In order, each timer once, and known ones only. */
  ghost predicate Good(p: Plan, kinds: Kinds) {
    && ByDeadline(p.row)
    && (forall e :: e in p.row ==> e.id in kinds)
  }

  /** Listed periodic timers are active. */
  ghost predicate Flagged(p: Plan, kinds: Kinds) {
    forall e :: e in p.row && e.id in kinds && kinds[e.id].periodic ==> e.id in p.active
  }

  ghost function DueIds(p: Plan): (ids: set<Id>) {
    set e | e in p.row && e.deadline <= p.now :: e.id
  }

  lemma {:induction false} OffByDeadline(row: seq<Entry>, x: Id)
    requires ByDeadline(row)
    ensures ByDeadline(Off(row, x))
  {
    if row != [] {
      OffByDeadline(row[1..], x);
      if row[0].id != x { AheadByDeadline(row, Off(row[1..], x)); }
    }
  }

  /** The first entry in front of some of the others. */
  lemma AheadByDeadline(row: seq<Entry>, rest: seq<Entry>)
    requires ByDeadline(row) && row != [] && ByDeadline(rest) && forall e :: e in rest ==> e in row[1..]
    ensures ByDeadline([row[0]] + rest)
  {
    forall j | 0 <= j < |rest|
      ensures row[0].deadline <= rest[j].deadline && row[0].id != rest[j].id
    {
      assert rest[j] in row[1..];
      var k :| 0 <= k < |row[1..]| && row[1..][k] == rest[j];
      assert row[k + 1] == rest[j];
    }
  }

  lemma PlacedByDeadline(row: seq<Entry>, e: Entry)
    requires ByDeadline(row) && forall i :: 0 <= i < |row| ==> row[i].id != e.id
    ensures ByDeadline(Placed(row, e))
  {
    var r, p := Placed(row, e), PlaceOf(row, e.deadline);
    assert forall i :: 0 <= i < |r| ==> r[i] == if i < p then row[i] else if i == p then e else row[i - 1];
    hide Placed, PlaceOf;
    forall i, j | 0 <= i < j < |r|
      ensures r[i].deadline <= r[j].deadline && r[i].id != r[j].id
    {
      if j == p {
        assert r[i] == row[i];
      } else if i == p {
        assert r[j] == row[j - 1] && row[p].deadline <= row[j - 1].deadline;
      }
    }
  }

  lemma StartedGood(p: Plan, x: Id, kinds: Kinds)
    requires Good(p, kinds) && x in kinds
    ensures Good(Started(p, x, kinds), kinds)
    ensures Flagged(p, kinds) ==> Flagged(Started(p, x, kinds), kinds)
  {
    var off := Off(p.row, x);
    OffByDeadline(p.row, x);
    assert forall i :: 0 <= i < |off| ==> off[i] in off;
    PlacedByDeadline(off, Entry(x, DeadlineOf(p, x, kinds)));
    hide ByDeadline, Off, Placed;
  }

  lemma StoppedGood(p: Plan, x: Id, kinds: Kinds)
    requires Good(p, kinds)
    ensures Good(Stopped(p, x), kinds)
    ensures Flagged(p, kinds) ==> Flagged(Stopped(p, x), kinds)
  {
    OffByDeadline(p.row, x);
    hide ByDeadline, Off;
  }

  lemma {:induction false} CalledGood(p: Plan, calls: seq<Call>, kinds: Kinds)
    requires Good(p, kinds) && forall c :: c in calls ==> c.id in kinds
    ensures Good(CalledAll(p, calls, kinds), kinds)
    ensures Flagged(p, kinds) ==> Flagged(CalledAll(p, calls, kinds), kinds)
  {
    hide Good, Flagged, Started, Stopped;
    if calls != [] {
      var n := |calls| - 1;
      CalledGood(p, calls[..n], kinds);
      var q, c := CalledAll(p, calls[..n], kinds), calls[n];
      assert c in calls;
      match c
      case StartCall(id) => StartedGood(q, id, kinds);
      case StopCall(id) => StoppedGood(q, id, kinds);
    }
  }

  lemma NextGood(p: Plan, callbacks: Callbacks, kinds: Kinds)
    requires Good(p, kinds) && Known(callbacks, kinds)
    ensures Good(Next(p, callbacks, kinds), kinds) && Next(p, callbacks, kinds).now == p.now
    ensures Flagged(p, kinds) ==> Flagged(Next(p, callbacks, kinds), kinds)
  {
    if DueFirst(p) {
      var t, q := p.row[0].id, p.(row := p.row[1..]);
      assert p.row[0] in p.row;
      assert Good(q, kinds) && (Flagged(p, kinds) ==> Flagged(q, kinds));
      KnownCalls(callbacks, kinds, t);
      var r := CalledAll(q, CallsOf(callbacks, t), kinds);
      CalledGood(q, CallsOf(callbacks, t), kinds);
      CalledNow(q, CallsOf(callbacks, t), kinds);
      hide Known, CalledAll, Started, Good, Flagged;
      SettledGood(r, t, kinds);
    }
  }

  lemma SettledGood(p: Plan, t: Id, kinds: Kinds)
    requires Good(p, kinds) && t in kinds
    ensures Good(Settled(p, t, kinds), kinds) && Settled(p, t, kinds).now == p.now
    ensures Flagged(p, kinds) ==> Flagged(Settled(p, t, kinds), kinds)
  {
    StartedGood(p, t, kinds);
    hide ByDeadline;
  }

  lemma {:induction false} CalledNow(p: Plan, calls: seq<Call>, kinds: Kinds)
    ensures CalledAll(p, calls, kinds).now == p.now
  {
    if calls != [] { CalledNow(p, calls[..|calls| - 1], kinds); }
  }

  // ----- what one round does to a timer -----

  ghost predicate OnList(row: seq<Entry>, x: Id) {
    exists e :: e in row && e.id == x
  }

  /** A listed timer is active. */
  ghost predicate Marked(p: Plan, x: Id) {
    OnList(p.row, x) ==> x in p.active
  }

  ghost predicate OnlyAt(row: seq<Entry>, x: Id, deadline: nat) {
    Entry(x, deadline) in row && forall e :: e in row && e.id == x ==> e.deadline == deadline
  }

  ghost predicate SameFor(p: Plan, q: Plan, x: Id) {
    && (forall e: Entry :: e.id == x ==> (e in q.row <==> e in p.row))
    && (x in q.active <==> x in p.active)
  }

  /** What some calls do to timer `x`, by the last of them that concerns it. */
  ghost predicate Effect(p: Plan, q: Plan, calls: seq<Call>, kinds: Kinds, x: Id) {
    if EndsStarted(calls, x) then x in q.active && OnlyAt(q.row, x, DeadlineOf(p, x, kinds))
    else if Concerns(calls, x) then
      && x !in q.active
      && (forall e :: e in q.row && e.id == x ==> e in p.row)
      && (Marked(p, x) ==> !OnList(q.row, x))
    else SameFor(p, q, x)
  }

  lemma StartedEffect(p: Plan, y: Id, kinds: Kinds, x: Id)
    ensures var q := Started(p, y, kinds);
            if x == y then x in q.active && OnlyAt(q.row, x, DeadlineOf(p, x, kinds)) else SameFor(p, q, x)
  {
    hide PlaceOf;
  }

  lemma StoppedEffect(p: Plan, y: Id, x: Id)
    ensures var q := Stopped(p, y);
            if x != y then SameFor(p, q, x)
            else x !in q.active && (forall e :: e in q.row && e.id == x ==> e in p.row) &&
                 (Marked(p, x) ==> !OnList(q.row, x))
  {
  }

  lemma SameMarked(p: Plan, q: Plan, x: Id)
    requires SameFor(p, q, x)
    ensures OnList(p.row, x) <==> OnList(q.row, x)
    ensures Marked(p, x) <==> Marked(q, x)
  {
    if e :| e in p.row && e.id == x { assert e in q.row; }
    if e :| e in q.row && e.id == x { assert e in p.row; }
  }

  lemma {:induction false} CallsEffect(p: Plan, calls: seq<Call>, kinds: Kinds, x: Id)
    ensures Effect(p, CalledAll(p, calls, kinds), calls, kinds, x)
  {
    if calls != [] {
      var n := |calls| - 1;
      var q, c := CalledAll(p, calls[..n], kinds), calls[n];
      var r := Called(q, c, kinds);
      CallsEffect(p, calls[..n], kinds, x);
      CalledNow(p, calls[..n], kinds);
      hide CalledAll, Started, Stopped;
      match c
      case StartCall(id) => StartedEffect(q, id, kinds, x);
      case StopCall(id) => StoppedEffect(q, id, x);
      EffectMore(p, q, r, calls, kinds, x);
    }
  }

  lemma EffectMore(p: Plan, q: Plan, r: Plan, calls: seq<Call>, kinds: Kinds, x: Id)
    requires calls != [] && q.now == p.now && Effect(p, q, calls[..|calls| - 1], kinds, x)
    requires var c := calls[|calls| - 1];
             if c.id != x then SameFor(q, r, x)
             else if c.StartCall? then x in r.active && OnlyAt(r.row, x, DeadlineOf(q, x, kinds))
             else x !in r.active && (forall e :: e in r.row && e.id == x ==> e in q.row) &&
                  (Marked(q, x) ==> !OnList(r.row, x))
    ensures Effect(p, r, calls, kinds, x)
  {
    var c, less := calls[|calls| - 1], calls[..|calls| - 1];
    if c.id != x {
      SameMarked(q, r, x);
      if Concerns(less, x) || EndsStarted(less, x) { StartConcerns(less, x); }
    } else if c.StopCall? {
      StopLast(p, q, r, less, kinds, x);
    }
  }

  lemma StopLast(p: Plan, q: Plan, r: Plan, less: seq<Call>, kinds: Kinds, x: Id)
    requires Effect(p, q, less, kinds, x)
    requires x !in r.active && (forall e :: e in r.row && e.id == x ==> e in q.row)
             && (Marked(q, x) ==> !OnList(r.row, x))
    ensures forall e :: e in r.row && e.id == x ==> e in p.row
    ensures Marked(p, x) ==> !OnList(r.row, x)
  {
  }

  lemma {:induction false} StartConcerns(calls: seq<Call>, x: Id)
    ensures EndsStarted(calls, x) ==> Concerns(calls, x)
  {
    if calls != [] { StartConcerns(calls[..|calls| - 1], x); }
  }

  /** A timer that does not expire sees only the calls of the one that does. */
  lemma NextOther(p: Plan, callbacks: Callbacks, kinds: Kinds, x: Id)
    requires DueFirst(p) && x != p.row[0].id
    ensures Effect(p, Next(p, callbacks, kinds), CallsOf(callbacks, p.row[0].id), kinds, x)
  {
    hide CalledAll, Settled, Effect, SameFor;
    var t := p.row[0].id;
    var q, calls := p.(row := p.row[1..]), CallsOf(callbacks, t);
    var r := CalledAll(q, calls, kinds);
    CallsEffect(q, calls, kinds, x);
    RestSame(p, x);
    SettledOther(r, t, kinds, x);
    EffectAround(p, q, r, Settled(r, t, kinds), calls, kinds, x);
  }

  lemma RestSame(p: Plan, x: Id)
    requires p.row != [] && x != p.row[0].id
    ensures SameFor(p, p.(row := p.row[1..]), x)
  {
    assert p.row == [p.row[0]] + p.row[1..];
  }

  lemma SettledOther(p: Plan, t: Id, kinds: Kinds, x: Id)
    requires x != t
    ensures SameFor(p, Settled(p, t, kinds), x)
  {
    StartedEffect(p, t, kinds, x);
    hide Started;
  }

  lemma EffectAround(p: Plan, q: Plan, r: Plan, s: Plan, calls: seq<Call>, kinds: Kinds, x: Id)
    requires SameFor(p, q, x) && q.now == p.now && Effect(q, r, calls, kinds, x) && SameFor(r, s, x)
    ensures Effect(p, s, calls, kinds, x)
  {
    hide EndsStarted, Concerns;
    SameMarked(p, q, x);
    SameMarked(r, s, x);
  }

  /** Whether the timer that expires is started again after its timeout function. */
  ghost predicate GoesAgain(p: Plan, callbacks: Callbacks, kinds: Kinds, t: Id) {
    && t in kinds && kinds[t].periodic
    && (EndsStarted(CallsOf(callbacks, t), t) || (t in p.active && !Concerns(CallsOf(callbacks, t), t)))
  }

  lemma NextSelf(p: Plan, callbacks: Callbacks, kinds: Kinds)
    requires Good(p, kinds) && DueFirst(p)
    ensures var t, q := p.row[0].id, Next(p, callbacks, kinds);
            var calls := CallsOf(callbacks, t);
            if GoesAgain(p, callbacks, kinds, t) then t in q.active && OnlyAt(q.row, t, DeadlineOf(p, t, kinds))
            else
              && t !in q.active && (OnList(q.row, t) <==> EndsStarted(calls, t))
              && (EndsStarted(calls, t) ==> OnlyAt(q.row, t, DeadlineOf(p, t, kinds)))
  {
    hide CalledAll, Settled, EndsStarted, Concerns, Good, Effect, OnlyAt, OnList;
    var t := p.row[0].id;
    var q, calls := p.(row := p.row[1..]), CallsOf(callbacks, t);
    var r := CalledAll(q, calls, kinds);
    FirstGone(p, kinds);
    CallsEffect(q, calls, kinds, t);
    CalledNow(q, calls, kinds);
    AfterOwnCalls(q, r, calls, kinds, t);
    SettledSelf(r, t, kinds);
  }

  lemma FirstGone(p: Plan, kinds: Kinds)
    requires Good(p, kinds) && p.row != []
    ensures !OnList(p.row[1..], p.row[0].id)
  {
  }

  lemma AfterOwnCalls(q: Plan, r: Plan, calls: seq<Call>, kinds: Kinds, t: Id)
    requires Effect(q, r, calls, kinds, t) && !OnList(q.row, t) && r.now == q.now
    ensures OnList(r.row, t) <==> EndsStarted(calls, t)
    ensures EndsStarted(calls, t) ==> OnlyAt(r.row, t, DeadlineOf(r, t, kinds))
    ensures t in r.active <==> EndsStarted(calls, t) || (t in q.active && !Concerns(calls, t))
  {
    StartConcerns(calls, t);
    hide EndsStarted, Concerns;
    if SameFor(q, r, t) { SameMarked(q, r, t); }
    if EndsStarted(calls, t) { assert Entry(t, DeadlineOf(q, t, kinds)) in r.row; }
  }

  lemma SettledSelf(p: Plan, t: Id, kinds: Kinds)
    ensures var q := Settled(p, t, kinds);
            if t in kinds && kinds[t].periodic && t in p.active then
              t in q.active && OnlyAt(q.row, t, DeadlineOf(p, t, kinds))
            else t !in q.active && q.row == p.row
  {
    StartedEffect(p, t, kinds, t);
    hide Started;
  }

  lemma IsDue(p: Plan, x: Id, deadline: nat)
    requires OnlyAt(p.row, x, deadline)
    ensures x in DueIds(p) <==> deadline <= p.now
  {
  }

  lemma NotListedNotDue(p: Plan, x: Id)
    requires x in DueIds(p)
    ensures OnList(p.row, x)
  {
  }

  lemma SameDue(p: Plan, q: Plan, x: Id)
    requires SameFor(p, q, x) && q.now == p.now
    ensures x in DueIds(p) <==> x in DueIds(q)
  {
    if e :| e in p.row && e.id == x && e.deadline <= p.now { assert e in q.row; }
    if e :| e in q.row && e.id == x && e.deadline <= q.now { assert e in p.row; }
  }

  /** What is due after a round was due before it, or is started by it for the same tick. */
  lemma DueNext(p: Plan, callbacks: Callbacks, kinds: Kinds, x: Id)
    requires Good(p, kinds) && Known(callbacks, kinds) && DueFirst(p) && x in DueIds(Next(p, callbacks, kinds))
    ensures (x in DueIds(p) && x != p.row[0].id) || StartsNow(callbacks, kinds, p.row[0].id, x)
  {
    var t, q := p.row[0].id, Next(p, callbacks, kinds);
    var calls := CallsOf(callbacks, t);
    NextGood(p, callbacks, kinds);
    assert p.row[0] in p.row;
    NotListedNotDue(q, x);
    hide Next, Good, EndsStarted, Concerns, DueIds;
    if x == t {
      NextSelf(p, callbacks, kinds);
      IsDue(q, t, DeadlineOf(p, t, kinds));
    } else {
      NextOther(p, callbacks, kinds, x);
      DueOther(p, q, calls, kinds, x);
      if EndsStarted(calls, x) { StartsListed(callbacks, kinds, t, x); }
    }
  }

  lemma DueOther(p: Plan, q: Plan, calls: seq<Call>, kinds: Kinds, x: Id)
    requires Effect(p, q, calls, kinds, x) && q.now == p.now && x in DueIds(q)
    ensures if EndsStarted(calls, x) then DeadlineOf(p, x, kinds) == p.now else x in DueIds(p)
  {
    if EndsStarted(calls, x) {
      IsDue(q, x, DeadlineOf(p, x, kinds));
    } else {
      var e :| e in q.row && e.id == x && e.deadline <= q.now;
      assert e in p.row;
    }
  }

  /** Calls concern known timers only. */
  lemma {:induction false} StartsListed(callbacks: Callbacks, kinds: Kinds, t: Id, x: Id)
    requires Known(callbacks, kinds) && EndsStarted(CallsOf(callbacks, t), x)
    ensures x in kinds
  {
    ConcernedCall(CallsOf(callbacks, t), x);
  }

  lemma {:induction false} ConcernedCall(calls: seq<Call>, x: Id)
    requires EndsStarted(calls, x)
    ensures exists c :: c in calls && c.id == x
  {
    var n := |calls| - 1;
    if calls[n].id == x {
      assert calls[n] in calls;
    } else {
      ConcernedCall(calls[..n], x);
      var c :| c in calls[..n] && c.id == x;
      assert c in calls;
    }
  }

  /** What a round starts for the same tick is due after it. */
  lemma StartedDue(p: Plan, callbacks: Callbacks, kinds: Kinds, x: Id)
    requires Good(p, kinds) && Known(callbacks, kinds) && Flagged(p, kinds) && DueFirst(p)
    requires StartsNow(callbacks, kinds, p.row[0].id, x)
    ensures x in DueIds(Next(p, callbacks, kinds))
  {
    var t, q := p.row[0].id, Next(p, callbacks, kinds);
    NextGood(p, callbacks, kinds);
    assert p.row[0] in p.row;
    if x == t { NextSelf(p, callbacks, kinds); } else { NextOther(p, callbacks, kinds, x); }
    hide Next, Good, EndsStarted, Concerns, DueIds;
    assert OnlyAt(q.row, x, DeadlineOf(p, x, kinds));
    IsDue(q, x, DeadlineOf(p, x, kinds));
  }

  /** A due timer that a round neither expires, stops nor delays stays due. */
  lemma StaysDue(p: Plan, callbacks: Callbacks, kinds: Kinds, x: Id)
    requires Good(p, kinds) && Known(callbacks, kinds) && DueFirst(p) && x in DueIds(p) && x != p.row[0].id
    requires var calls := CallsOf(callbacks, p.row[0].id);
             Concerns(calls, x) ==> EndsStarted(calls, x) && NoTicks(kinds, x)
    ensures x in DueIds(Next(p, callbacks, kinds))
  {
    var q, calls := Next(p, callbacks, kinds), CallsOf(callbacks, p.row[0].id);
    NextGood(p, callbacks, kinds);
    NextOther(p, callbacks, kinds, x);
    StartConcerns(calls, x);
    hide Next, Good, EndsStarted, Concerns, DueIds;
    if EndsStarted(calls, x) { IsDue(q, x, DeadlineOf(p, x, kinds)); } else { SameDue(p, q, x); }
  }

  lemma DueFirstIff(p: Plan, kinds: Kinds)
    requires Good(p, kinds)
    ensures DueFirst(p) ==> p.row[0].id in DueIds(p)
    ensures !DueFirst(p) ==> forall x :: x !in DueIds(p)
  {
    if DueFirst(p) {
      assert p.row[0] in p.row;
    } else {
      forall e | e in p.row
        ensures e.deadline > p.now
      {
        var i :| 0 <= i < |p.row| && p.row[i] == e;
        assert p.row[0].deadline <= p.row[i].deadline;
      }
    }
  }
}
