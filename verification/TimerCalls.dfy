/** What timeout functions call, and whether that can go on forever within one tick. */
module TimerCalls {
  import opened Lists
  import opened PowerOfTwo
  import opened TimerRows

  datatype Timer = Timer(initTick: Tick, timeoutTick: Tick, periodic: bool, activated: bool)

  /** What a timer is set to, whatever state it is in. */
  datatype Kind = Kind(initTick: Tick, periodic: bool)

  type Kinds = map<Id, Kind>

  /** What a timeout function may ask of the timer list. */
  datatype Call = StartCall(id: Id) | StopCall(id: Id)

  /** The last of the calls that concerns `id` starts it. */
  predicate EndsStarted(calls: seq<Call>, id: Id) {
    calls != [] &&
    var last := calls[|calls| - 1];
    if last.id == id then last.StartCall? else EndsStarted(calls[..|calls| - 1], id)
  }

  /** Some of the calls concerns `id`. */
  predicate Concerns(calls: seq<Call>, id: Id) {
    calls != [] && (calls[|calls| - 1].id == id || Concerns(calls[..|calls| - 1], id))
  }

  /** What the timeout functions of the timers call. */
  type Callbacks = map<Id, seq<Call>>

  function CallsOf(callbacks: Callbacks, id: Id): (calls: seq<Call>) {
    if id in callbacks then callbacks[id] else []
  }

  ghost predicate Known(callbacks: Callbacks, kinds: Kinds) {
    forall id, c :: id in callbacks && c in callbacks[id] ==> c.id in kinds
  }

  lemma KnownCalls(callbacks: Callbacks, kinds: Kinds, t: Id)
    requires Known(callbacks, kinds)
    ensures forall c :: c in CallsOf(callbacks, t) ==> c.id in kinds
  {
  }

  predicate NoTicks(kinds: Kinds, z: Id) {
    z in kinds && kinds[z].initTick == 0
  }

  /** A periodic timer that its own calls do not stop is started again after them. */
  ghost predicate Repeats(callbacks: Callbacks, kinds: Kinds, z: Id) {
    z in kinds && kinds[z].periodic && !Concerns(CallsOf(callbacks, z), z)
  }

  /** The expiry of `a` leaves `z` started for the same tick. */
  ghost predicate StartsNow(callbacks: Callbacks, kinds: Kinds, a: Id, z: Id) {
    NoTicks(kinds, z) && (EndsStarted(CallsOf(callbacks, a), z) || (a == z && Repeats(callbacks, kinds, z)))
  }

  ghost predicate StartsOneOf(callbacks: Callbacks, kinds: Kinds, a: Id, c: set<Id>) {
    exists z :: z in c && StartsNow(callbacks, kinds, a, z)
  }

  /** A set of timers of no ticks the expiry of each of which leaves one of the set started. */
  ghost predicate Trap(callbacks: Callbacks, kinds: Kinds, c: set<Id>) {
    && |c| > 0
    && (forall x :: x in c ==> NoTicks(kinds, x))
    && (forall x :: x in c ==> StartsOneOf(callbacks, kinds, x, c))
  }

  ghost predicate NoTrapIn(callbacks: Callbacks, kinds: Kinds, s: set<Id>) {
    forall c: set<Id> :: c <= s ==> !Trap(callbacks, kinds, c)
  }

  // ----- what the due timers can lead to within the tick -----

  ghost predicate Closed(callbacks: Callbacks, kinds: Kinds, c: set<Id>) {
    forall a, z :: a in c && StartsNow(callbacks, kinds, a, z) ==> z in c
  }

  ghost predicate Reached(callbacks: Callbacks, kinds: Kinds, due: set<Id>, x: Id) {
    forall c: set<Id> :: due <= c && Closed(callbacks, kinds, c) ==> x in c
  }

  /** The due timers, those they leave started for the same tick, and so on. */
  ghost function Closure(callbacks: Callbacks, kinds: Kinds, due: set<Id>): (s: set<Id>) {
    set x | x in kinds && Reached(callbacks, kinds, due, x)
  }

  lemma ClosureIs(callbacks: Callbacks, kinds: Kinds, due: set<Id>)
    requires due <= kinds.Keys
    ensures due <= Closure(callbacks, kinds, due) && Closed(callbacks, kinds, Closure(callbacks, kinds, due))
  {
    hide StartsNow;
    var s := Closure(callbacks, kinds, due);
    forall a, z | a in s && StartsNow(callbacks, kinds, a, z)
      ensures z in s
    {
      StartsKnown(callbacks, kinds, a, z);
    }
  }

  lemma StartsKnown(callbacks: Callbacks, kinds: Kinds, a: Id, z: Id)
    requires StartsNow(callbacks, kinds, a, z)
    ensures NoTicks(kinds, z) && z in kinds
  {
  }

  lemma ClosureLeast(callbacks: Callbacks, kinds: Kinds, due: set<Id>, c: set<Id>)
    requires due <= c && Closed(callbacks, kinds, c)
    ensures Closure(callbacks, kinds, due) <= c
  {
  }

  // ----- without a trap, starts within a tick lead downwards -----

  ghost predicate Downwards(callbacks: Callbacks, kinds: Kinds, order: seq<Id>) {
    forall i, j :: 0 <= i < |order| && 0 <= j < |order| && StartsNow(callbacks, kinds, order[i], order[j]) ==> j < i
  }

  /** Some timer of the set starts none of the set. */
  lemma Bottommost(callbacks: Callbacks, kinds: Kinds, s: set<Id>) returns (c: Id)
    requires NoTrapIn(callbacks, kinds, s) && |s| > 0 && forall x :: x in s ==> NoTicks(kinds, x)
    ensures c in s && forall z :: z in s ==> !StartsNow(callbacks, kinds, c, z)
  {
    assert !Trap(callbacks, kinds, s);
    c :| c in s && !StartsOneOf(callbacks, kinds, c, s);
  }

  lemma {:induction false} ZeroTicksInOrder(callbacks: Callbacks, kinds: Kinds, s: set<Id>)
    returns (order: seq<Id>)
    requires NoTrapIn(callbacks, kinds, s) && forall x :: x in s ==> NoTicks(kinds, x)
    ensures Downwards(callbacks, kinds, order) && forall x :: x in order <==> x in s
    decreases s
  {
    if |s| == 0 {
      order := [];
    } else {
      hide StartsNow, Trap;
      var c := Bottommost(callbacks, kinds, s);
      var rest := ZeroTicksInOrder(callbacks, kinds, s - {c});
      order := [c] + rest;
      forall i, j | 0 <= i < |order| && 0 <= j < |order| && StartsNow(callbacks, kinds, order[i], order[j])
        ensures j < i
      {
        assert j > 0 ==> order[j] == rest[j - 1] && rest[j - 1] in rest;
        assert i > 0 ==> order[i] == rest[i - 1];
      }
    }
  }

  lemma {:induction false} InSomeOrder(s: set<Id>) returns (order: seq<Id>)
    ensures forall x :: x in order <==> x in s
    decreases s
  {
    if x :| x in s {
      var rest := InSomeOrder(s - {x});
      order := [x] + rest;
    } else {
      order := [];
    }
  }

  /** All timers of a set without traps in an order in which starts within a tick lead downwards. */
  lemma AllInOrder(callbacks: Callbacks, kinds: Kinds, s: set<Id>) returns (order: seq<Id>)
    requires NoTrapIn(callbacks, kinds, s)
    ensures Downwards(callbacks, kinds, order) && forall x :: x in order <==> x in s
  {
    hide Trap;
    var zero := set x | x in s && NoTicks(kinds, x);
    var low := ZeroTicksInOrder(callbacks, kinds, zero);
    var high := InSomeOrder(s - zero);
    order := low + high;
    forall j | |low| <= j < |order|
      ensures order[j] !in zero
    {
      assert order[j] == high[j - |low|];
      assert order[j] in high;
    }
    hide StartsNow;
    forall i, j | 0 <= i < |order| && 0 <= j < |order| && StartsNow(callbacks, kinds, order[i], order[j])
      ensures j < i
    {
      StartsKnown(callbacks, kinds, order[i], order[j]);
      assert order[j] in order;
      assert order[j] in zero;
      assert i < |low| ==> order[i] == low[i] && order[j] == low[j];
    }
  }

  // ----- a number that falls with every expiry -----

  /** The due timers as a binary number, by their places in the order. */
  ghost function Weight(order: seq<Id>, due: set<Id>): (w: nat) {
    if order == [] then 0
    else
      var n := |order| - 1;
      Weight(order[..n], due) + if order[n] in due then Pow2(n) else 0
  }

  lemma {:induction false} WeightBelow(order: seq<Id>, due: set<Id>)
    ensures Weight(order, due) < Pow2(|order|)
  {
    if order != [] { WeightBelow(order[..|order| - 1], due); }
  }

  /** A timer leaves and only timers below it join: the number falls. */
  lemma {:induction false} WeightFalls(order: seq<Id>, due: set<Id>, due': set<Id>, i: nat)
    requires i < |order| && order[i] in due && order[i] !in due'
    requires forall j :: i < j < |order| && order[j] in due' ==> order[j] in due
    ensures Weight(order, due') < Weight(order, due)
    decreases |order|
  {
    var n := |order| - 1;
    var less := order[..n];
    if i == n {
      WeightBelow(less, due');
    } else {
      WeightFalls(less, due, due', i);
    }
  }
}
