/** Event sets: threads waiting for all or any of some bits, and senders that set them. */
module Event {
  import opened Lists
  import opened WaitList
  import opened WaitOrder
  import opened Words

  type Bits = Word

  /** RT_EVENT_FLAG_AND, RT_EVENT_FLAG_OR and RT_EVENT_FLAG_CLEAR. */
  datatype Option = Option(all: bool, any: bool, clear: bool)

  /** Where a thread is: outside rt_event_recv, suspended in it, resumed by a sender, or resumed with an error. */
  datatype Pc = Idle | Waiting(interest: Bits, option: Option) | Woken(received: Bits, option: Option) | Failed

  // ----- bits -----

  ghost predicate Within(a: Bits, b: Bits) {
    And(a, b) == a
  }

  lemma WithinItself(a: Bits)
    ensures Within(a, a)
  {
  }

  lemma AndWithin(a: Bits, b: Bits)
    ensures Within(And(a, b), a) && Within(And(a, b), b)
  {
  }

  lemma MinusWithin(a: Bits, b: Bits)
    ensures Within(Minus(a, b), a)
  {
    AndWithin(a, !b);
  }

  lemma AndCommutes(a: Bits, b: Bits)
    ensures And(a, b) == And(b, a)
  {
  }

  lemma WithinTransitive(a: Bits, b: Bits, c: Bits)
    requires Within(a, b) && Within(b, c)
    ensures Within(a, c)
  {
  }

  /** The sender clears only the bits it hands over; the thread itself would clear all it asked for. */
  lemma SameLeft(set_: Bits, interest: Bits)
    ensures Minus(set_, And(interest, set_)) == Minus(set_, interest)
  {
  }

  /** Bits taken out of the set are received by nobody else. */
  lemma ClearedApart(set_: Bits, interest: Bits, received: Bits)
    requires Within(received, Minus(set_, interest))
    ensures And(And(set_, interest), received) == 0
  {
  }

  lemma AllMonotone(a: Bits, b: Bits, interest: Bits)
    requires Within(a, b) && And(a, interest) == interest
    ensures And(b, interest) == interest
  {
  }

  lemma AnyMonotone(a: Bits, b: Bits, interest: Bits)
    requires Within(a, b) && And(a, interest) != 0
    ensures And(b, interest) != 0
  {
  }

  // ----- one thread asks -----

  predicate Met(set_: Bits, interest: Bits, option: Option) {
    if option.all then And(set_, interest) == interest
    else option.any && And(set_, interest) != 0
  }

  /** What is left of the set when a thread whose condition is met has had its bits. */
  function Left(set_: Bits, interest: Bits, option: Option): (r: Bits) {
    if option.clear then Minus(set_, interest) else set_
  }

  lemma LeftWithin(set_: Bits, interest: Bits, option: Option)
    ensures Within(Left(set_, interest, option), set_)
  {
    hide And, Minus, Within;
    if option.clear { MinusWithin(set_, interest); } else { WithinItself(set_); }
  }

  /** Fewer bits meet no more conditions. */
  lemma MetMonotone(a: Bits, b: Bits, interest: Bits, option: Option)
    requires Within(a, b)
    ensures Met(a, interest, option) ==> Met(b, interest, option)
  {
    hide And, Within;
    if option.all {
      if And(a, interest) == interest { AllMonotone(a, b, interest); }
    } else {
      if And(a, interest) != 0 { AnyMonotone(a, b, interest); }
    }
  }

  /** Bit by bit: AND wants every bit of interest, OR some of them. */
  lemma MetBits(set_: Bits, interest: Bits, option: Option)
    ensures option.all ==>
              (Met(set_, interest, option) <==> forall i :: 0 <= i < 32 && Bit(interest, i) ==> Bit(set_, i))
    ensures !option.all ==>
              (Met(set_, interest, option) <==>
                 option.any && exists i :: 0 <= i < 32 && Bit(interest, i) && Bit(set_, i))
  {
    hide And, Bit;
    var both := And(set_, interest);
    assert forall i :: 0 <= i < 32 ==> (Bit(both, i) <==> Bit(set_, i) && Bit(interest, i)) by {
      forall i | 0 <= i < 32
        ensures Bit(both, i) <==> Bit(set_, i) && Bit(interest, i)
      {
        AndBit(set_, interest, i);
      }
    }
    if option.all {
      if forall i :: 0 <= i < 32 && Bit(interest, i) ==> Bit(set_, i) { SameBits(both, interest); }
    } else if both != 0 {
      SomeBit(both);
    } else {
      assert forall i :: 0 <= i < 32 ==> !Bit(both, i) by { NoneSet(); }
    }
  }

  lemma NoneSet()
    ensures forall i :: 0 <= i < 32 ==> !Bit(0, i)
  {
    hide Bit;
    forall i | 0 <= i < 32
      ensures !Bit(0, i)
    {
      NoBits(0, i);
    }
  }

  lemma LeftBit(set_: Bits, interest: Bits, option: Option, i: int)
    requires 0 <= i < 32
    ensures Bit(Left(set_, interest, option), i) <==> Bit(set_, i) && !(option.clear && Bit(interest, i))
  {
    hide And, Minus, Bit;
    MinusBit(set_, interest, i);
  }

  lemma EveryBitTaken(set_: Bits, interest: Bits, option: Option)
    ensures forall i :: 0 <= i < 32 ==>
              && (Bit(And(set_, interest), i) <==> Bit(set_, i) && Bit(interest, i))
              && (Bit(Left(set_, interest, option), i) <==> Bit(set_, i) && !(option.clear && Bit(interest, i)))
  {
    hide And, Bit, Left;
    forall i | 0 <= i < 32
      ensures Bit(And(set_, interest), i) <==> Bit(set_, i) && Bit(interest, i)
      ensures Bit(Left(set_, interest, option), i) <==> Bit(set_, i) && !(option.clear && Bit(interest, i))
    {
      AndBit(set_, interest, i);
      LeftBit(set_, interest, option, i);
    }
  }

  // ----- a sender asks for all of them, in list order -----

  datatype Swept = Swept(rest: Bits, waiters: seq<Tid>, pc: map<Tid, Pc>)

  ghost predicate Listed(list: seq<Tid>, pc: map<Tid, Pc>) {
    Distinct(list) && forall i :: 0 <= i < |list| ==> list[i] in pc && pc[list[i]].Waiting?
  }

  ghost function Release(set_: Bits, t: Tid, pc: map<Tid, Pc>): (r: map<Tid, Pc>)
    requires t in pc && pc[t].Waiting?
  {
    pc[t := Woken(And(set_, pc[t].interest), pc[t].option)]
  }

  /** Each waiter in turn polls the set; those whose condition is met leave the list with what they received. */
  ghost function Sweep(set_: Bits, list: seq<Tid>, pc: map<Tid, Pc>): (r: Swept)
    requires Listed(list, pc)
    decreases list
  {
    hide And, Minus;
    if list == [] then Swept(set_, [], pc)
    else
      var t := list[0];
      if Met(set_, pc[t].interest, pc[t].option) then
        Sweep(Left(set_, pc[t].interest, pc[t].option), list[1..], Release(set_, t, pc))
      else
        var r := Sweep(set_, list[1..], pc);
        Swept(r.rest, [t] + r.waiters, r.pc)
  }

  lemma SweepEmpty(set_: Bits, pc: map<Tid, Pc>)
    ensures Listed([], pc) && Sweep(set_, [], pc) == Swept(set_, [], pc)
  {
  }

  /** The test that sending makes for a waiter: whether the bits suffice, and which are received. */
  method Offer(s: Bits, interest: Bits, option: Option) returns (ok: bool, eventSet: Bits)
    ensures ok == Met(s, interest, option)
    ensures option.all ==> (ok <==> forall i :: 0 <= i < 32 && Bit(interest, i) ==> Bit(s, i))
    ensures !option.all ==> (ok <==> option.any && exists i :: 0 <= i < 32 && Bit(interest, i) && Bit(s, i))
    ensures ok ==> eventSet == And(s, interest) && (if option.clear then Minus(s, eventSet) else s)
                                                   == Left(s, interest, option)
  {
    hide And, Minus, Bit;
    MetBits(s, interest, option);
    AndCommutes(s, interest);
    SameLeft(s, interest);
    ok, eventSet := false, interest;
    if option.all {
      if And(interest, s) == interest { ok := true; }
    } else if option.any {
      if And(interest, s) != 0 {
        eventSet := And(interest, s);
        ok := true;
      }
    }
  }

  /** The sweep releases threads of the list only, and leaves the others as they are. */
  lemma {:induction false} SweepFrame(set_: Bits, list: seq<Tid>, pc: map<Tid, Pc>)
    requires Listed(list, pc)
    ensures var r := Sweep(set_, list, pc);
            && r.pc.Keys == pc.Keys
            && (forall t :: t in pc && t !in list ==> r.pc[t] == pc[t])
            && Distinct(r.waiters)
            && (forall t :: t in r.waiters ==> t in list && t in pc && r.pc[t] == pc[t])
            && (forall t :: t in list && t !in r.waiters ==>
                  t in pc && pc[t].Waiting? && r.pc[t].Woken? && r.pc[t].option == pc[t].option)
    decreases list
  {
    hide And, Minus, Met, Left, Sweep;
    if list == [] {
      SweepEmpty(set_, pc);
    } else {
      var t, rest := list[0], list[1..];
      assert list == [t] + rest;
      SweepFirst(set_, list, pc);
      if Met(set_, pc[t].interest, pc[t].option) {
        SweepFrame(Left(set_, pc[t].interest, pc[t].option), rest, Release(set_, t, pc));
      } else {
        SweepFrame(set_, rest, pc);
      }
    }
  }

  /** The sweep only removes bits, and what is received was asked for and there. */
  lemma {:induction false} SweepBits(set_: Bits, list: seq<Tid>, pc: map<Tid, Pc>)
    requires Listed(list, pc)
    ensures var r := Sweep(set_, list, pc);
            && Within(r.rest, set_)
            && forall t :: t in list && t !in r.waiters ==>
                 && t in pc && pc[t].Waiting? && t in r.pc && r.pc[t].Woken?
                 && Within(r.pc[t].received, set_) && Within(r.pc[t].received, pc[t].interest)
    decreases list
  {
    hide And, Minus, Met, Left, Within, Distinct, Sweep;
    var r := Sweep(set_, list, pc);
    SweepFrame(set_, list, pc);
    if list == [] {
      SweepEmpty(set_, pc);
      WithinItself(set_);
    } else {
      var t, rest := list[0], list[1..];
      SweepFirst(set_, list, pc);
      if Met(set_, pc[t].interest, pc[t].option) {
        var left, pc' := Left(set_, pc[t].interest, pc[t].option), Release(set_, t, pc);
        SweepBits(left, rest, pc');
        SweepFrame(left, rest, pc');
        LeftWithin(set_, pc[t].interest, pc[t].option);
        WithinTransitive(r.rest, left, set_);
        AndWithin(set_, pc[t].interest);
        forall u | u in list && u !in r.waiters
          ensures Within(r.pc[u].received, set_) && Within(r.pc[u].received, pc[u].interest)
        {
          if u != t {
            assert u in rest;
            WithinTransitive(r.pc[u].received, left, set_);
          }
        }
      } else {
        SweepBits(set_, rest, pc);
        assert forall u :: u in list && u !in r.waiters ==> u in rest;
      }
    }
  }

  /** Nobody is left waiting whose condition the set still meets. */
  lemma {:induction false} SweepLeavesUnmet(set_: Bits, list: seq<Tid>, pc: map<Tid, Pc>)
    requires Listed(list, pc)
    ensures var r := Sweep(set_, list, pc);
            forall t :: t in r.waiters ==> t in pc && pc[t].Waiting? && !Met(r.rest, pc[t].interest, pc[t].option)
    decreases list
  {
    hide And, Minus, Within, Met, Left;
    if list != [] {
      var t, rest := list[0], list[1..];
      var r := Sweep(set_, list, pc);
      assert list == [t] + rest && t !in rest;
      if Met(set_, pc[t].interest, pc[t].option) {
        var left, pc' := Left(set_, pc[t].interest, pc[t].option), Release(set_, t, pc);
        SweepLeavesUnmet(left, rest, pc');
        SweepFrame(left, rest, pc');
        assert forall u :: u in r.waiters ==> u != t;
      } else {
        SweepLeavesUnmet(set_, rest, pc);
        SweepFrame(set_, rest, pc);
        SweepBits(set_, rest, pc);
        MetMonotone(r.rest, set_, pc[t].interest, pc[t].option);
      }
    }
  }

  /** A bit that one released thread clears is not received by any thread after it. */
  lemma {:induction false} SweepConsumesOnce(set_: Bits, list: seq<Tid>, pc: map<Tid, Pc>, i: nat, j: nat)
    requires Listed(list, pc) && i < j < |list|
    requires var r := Sweep(set_, list, pc);
             list[i] !in r.waiters && list[j] !in r.waiters && pc[list[i]].option.clear
    ensures var r := Sweep(set_, list, pc);
            && list[i] in r.pc && r.pc[list[i]].Woken? && list[j] in r.pc && r.pc[list[j]].Woken?
            && And(r.pc[list[i]].received, r.pc[list[j]].received) == 0
    decreases list
  {
    hide And, Minus, Within, Met, Left, Sweep, Distinct;
    SweepFrame(set_, list, pc);
    var t, rest := list[0], list[1..];
    var left := Left(set_, pc[t].interest, pc[t].option);
    SweepFirst(set_, list, pc);
    assert rest[j - 1] == list[j];
    if i == 0 {
      FirstConsumes(set_, list, pc, j);
    } else if Met(set_, pc[t].interest, pc[t].option) {
      assert rest[i - 1] == list[i];
      SweepConsumesOnce(left, rest, Release(set_, t, pc), i - 1, j - 1);
    } else {
      assert rest[i - 1] == list[i];
      SweepConsumesOnce(set_, rest, pc, i - 1, j - 1);
    }
  }

  /** What happens to the first of the list. */
  lemma SweepFirst(set_: Bits, list: seq<Tid>, pc: map<Tid, Pc>)
    requires Listed(list, pc) && list != []
    ensures var t, rest := list[0], list[1..];
            var pc', left := Release(set_, t, pc), Left(set_, pc[t].interest, pc[t].option);
            && Listed(rest, pc') && Listed(rest, pc) && t !in rest
            && (forall u :: u in rest ==> u in pc && pc'[u] == pc[u])
            && (if Met(set_, pc[t].interest, pc[t].option) then Sweep(set_, list, pc) == Sweep(left, rest, pc')
                else Sweep(set_, list, pc) ==
                     Sweep(set_, rest, pc).(waiters := [t] + Sweep(set_, rest, pc).waiters))
  {
    hide And, Minus, Met, Left;
  }

  lemma FirstConsumes(set_: Bits, list: seq<Tid>, pc: map<Tid, Pc>, j: nat)
    requires Listed(list, pc) && 0 < j < |list|
    requires var r := Sweep(set_, list, pc);
             list[0] !in r.waiters && list[j] !in r.waiters && pc[list[0]].option.clear
    ensures var r := Sweep(set_, list, pc);
            && list[0] in r.pc && r.pc[list[0]].Woken? && list[j] in r.pc && r.pc[list[j]].Woken?
            && And(r.pc[list[0]].received, r.pc[list[j]].received) == 0
  {
    hide And, Minus, Within, Met, Sweep, Distinct;
    var t, rest := list[0], list[1..];
    SweepFirst(set_, list, pc);
    assert rest[j - 1] == list[j];
    var left, pc' := Left(set_, pc[t].interest, pc[t].option), Release(set_, t, pc);
    SweepFrame(left, rest, pc');
    SweepBits(left, rest, pc');
    ClearedApart(set_, pc[t].interest, Sweep(left, rest, pc').pc[list[j]].received);
  }

  /** Bit `i` of the set has not been cleared by a thread released in front of number `k`. */
  ghost predicate Offered(set_: Bits, list: seq<Tid>, pc: map<Tid, Pc>, pc': map<Tid, Pc>, k: nat, i: int)
    requires Listed(list, pc) && k <= |list| && 0 <= i < 32
  {
    && Bit(set_, i)
    && forall j :: 0 <= j < k && list[j] in pc' && pc'[list[j]].Woken? && pc[list[j]].option.clear ==>
         !Bit(pc[list[j]].interest, i)
  }

  /** The first thread's bits are gone, or not, for the rest. */
  lemma OfferedBehind(set_: Bits, list: seq<Tid>, pc: map<Tid, Pc>, pc1: map<Tid, Pc>, left: Bits, pc': map<Tid, Pc>,
                      k: nat, i: int)
    requires Listed(list, pc) && 0 < k <= |list| && 0 <= i < 32 && Listed(list[1..], pc1)
    requires forall u :: u in list[1..] ==> pc1[u] == pc[u]
    requires list[0] in pc'
    requires left == if pc'[list[0]].Woken? then Left(set_, pc[list[0]].interest, pc[list[0]].option) else set_
    ensures Offered(set_, list, pc, pc', k, i) <==> Offered(left, list[1..], pc1, pc', k - 1, i)
  {
    hide Bit, Left;
    LeftBit(set_, pc[list[0]].interest, pc[list[0]].option, i);
    var rest := list[1..];
    assert forall j :: 0 <= j < |rest| ==> rest[j] == list[j + 1] && rest[j] in rest;
    if Offered(left, rest, pc1, pc', k - 1, i) {
      forall j | 0 <= j < k && list[j] in pc' && pc'[list[j]].Woken? && pc[list[j]].option.clear
        ensures !Bit(pc[list[j]].interest, i)
      {
        if j > 0 { assert rest[j - 1] == list[j]; }
      }
    }
  }

  /** What the sweep decides for number `k` of the list: released with the bits it was offered, or kept. */
  ghost predicate Decided(set_: Bits, list: seq<Tid>, pc: map<Tid, Pc>, r: Swept, k: nat)
    requires Listed(list, pc) && k < |list|
  {
    var t, p := list[k], pc[list[k]];
    && t in r.pc
    && (r.pc[t].Woken? || (r.pc[t] == p && t in r.waiters))
    && (p.option.all ==>
          (r.pc[t].Woken? <==>
             forall i :: 0 <= i < 32 && Bit(p.interest, i) ==> Offered(set_, list, pc, r.pc, k, i)))
    && (!p.option.all ==>
          (r.pc[t].Woken? <==>
             p.option.any && exists i :: 0 <= i < 32 && Bit(p.interest, i) && Offered(set_, list, pc, r.pc, k, i)))
    && (r.pc[t].Woken? ==>
          forall i :: 0 <= i < 32 ==>
            (Bit(r.pc[t].received, i) <==> Bit(p.interest, i) && Offered(set_, list, pc, r.pc, k, i)))
  }

  lemma {:induction false} SweepDecides(set_: Bits, list: seq<Tid>, pc: map<Tid, Pc>, k: nat)
    requires Listed(list, pc) && k < |list|
    ensures Decided(set_, list, pc, Sweep(set_, list, pc), k)
    decreases list
  {
    hide And, Minus, Bit, Met, Left, Sweep, Offered;
    var t, rest, r := list[0], list[1..], Sweep(set_, list, pc);
    SweepFirst(set_, list, pc);
    SweepFrame(set_, list, pc);
    var met := Met(set_, pc[t].interest, pc[t].option);
    var left := if met then Left(set_, pc[t].interest, pc[t].option) else set_;
    var pc1 := if met then Release(set_, t, pc) else pc;
    SweepFrame(left, rest, pc1);
    if k == 0 {
      FirstDecided(set_, list, pc, r);
    } else {
      hide Decided;
      SweepDecides(left, rest, pc1, k - 1);
      assert rest[k - 1] == list[k] && list[k] in rest;
      DecidedBehind(set_, list, pc, pc1, left, r, Sweep(left, rest, pc1), k);
    }
  }

  lemma DecidedBehind(set_: Bits, list: seq<Tid>, pc: map<Tid, Pc>, pc1: map<Tid, Pc>, left: Bits, r: Swept, r1: Swept,
                      k: nat)
    requires Listed(list, pc) && 0 < k < |list| && Listed(list[1..], pc1)
    requires (forall u :: u in list[1..] ==> pc1[u] == pc[u]) && list[0] in r.pc
    requires left == if r.pc[list[0]].Woken? then Left(set_, pc[list[0]].interest, pc[list[0]].option) else set_
    requires r.pc == r1.pc && forall u :: u in r1.waiters ==> u in r.waiters
    requires Decided(left, list[1..], pc1, r1, k - 1)
    ensures Decided(set_, list, pc, r, k)
  {
    hide Bit, Left, Offered;
    var rest := list[1..];
    assert rest[k - 1] == list[k] && list[k] in rest;
    forall i | 0 <= i < 32
      ensures Offered(set_, list, pc, r.pc, k, i) <==> Offered(left, rest, pc1, r.pc, k - 1, i)
    {
      OfferedBehind(set_, list, pc, pc1, left, r.pc, k, i);
    }
  }

  lemma FirstDecided(set_: Bits, list: seq<Tid>, pc: map<Tid, Pc>, r: Swept)
    requires Listed(list, pc) && list != [] && list[0] in r.pc
    requires if Met(set_, pc[list[0]].interest, pc[list[0]].option)
             then r.pc[list[0]] == Woken(And(set_, pc[list[0]].interest), pc[list[0]].option)
             else r.pc[list[0]] == pc[list[0]] && list[0] in r.waiters
    ensures Decided(set_, list, pc, r, 0)
  {
    hide And, Bit, Met;
    var p := pc[list[0]];
    MetBits(set_, p.interest, p.option);
    forall i | 0 <= i < 32
      ensures Offered(set_, list, pc, r.pc, 0, i) <==> Bit(set_, i)
      ensures Bit(And(set_, p.interest), i) <==> Bit(set_, i) && Bit(p.interest, i)
    {
      AndBit(set_, p.interest, i);
    }
  }

  /** What is left of the set is what nobody has cleared. */
  lemma {:induction false} SweepLeaves(set_: Bits, list: seq<Tid>, pc: map<Tid, Pc>, i: int)
    requires Listed(list, pc) && 0 <= i < 32
    ensures Bit(Sweep(set_, list, pc).rest, i) <==> Offered(set_, list, pc, Sweep(set_, list, pc).pc, |list|, i)
    decreases list
  {
    hide And, Minus, Bit, Met, Left, Sweep;
    if list == [] {
      SweepEmpty(set_, pc);
    } else {
      var t, rest, r := list[0], list[1..], Sweep(set_, list, pc);
      SweepFirst(set_, list, pc);
      SweepFrame(set_, list, pc);
      var met := Met(set_, pc[t].interest, pc[t].option);
      var left := if met then Left(set_, pc[t].interest, pc[t].option) else set_;
      var pc1 := if met then Release(set_, t, pc) else pc;
      SweepFrame(left, rest, pc1);
      SweepLeaves(left, rest, pc1, i);
      OfferedBehind(set_, list, pc, pc1, left, r.pc, |list|, i);
    }
  }

  lemma SweepBitwise(set_: Bits, list: seq<Tid>, pc: map<Tid, Pc>)
    requires Listed(list, pc)
    ensures var r := Sweep(set_, list, pc);
            && (forall k :: 0 <= k < |list| ==> Decided(set_, list, pc, r, k))
            && forall i :: 0 <= i < 32 ==> (Bit(r.rest, i) <==> Offered(set_, list, pc, r.pc, |list|, i))
  {
    hide Sweep, Decided, Bit, Offered;
    forall k | 0 <= k < |list|
      ensures Decided(set_, list, pc, Sweep(set_, list, pc), k)
    {
      SweepDecides(set_, list, pc, k);
    }
    forall i | 0 <= i < 32
      ensures Bit(Sweep(set_, list, pc).rest, i) <==> Offered(set_, list, pc, Sweep(set_, list, pc).pc, |list|, i)
    {
      SweepLeaves(set_, list, pc, i);
    }
  }

  lemma EveryOr(a: Bits, b: Bits)
    ensures forall i :: 0 <= i < 32 ==> (Bit(Or(a, b), i) <==> Bit(a, i) || Bit(b, i))
  {
    hide Bit, Or;
    forall i | 0 <= i < 32
      ensures Bit(Or(a, b), i) <==> Bit(a, i) || Bit(b, i)
    {
      OrBit(a, b, i);
    }
  }

  /** Those who stay keep their order. */
  lemma {:induction false} SweepInOrder(set_: Bits, list: seq<Tid>, pc: map<Tid, Pc>)
    requires Listed(list, pc)
    ensures SomeOf(list, Sweep(set_, list, pc).waiters)
    decreases list
  {
    hide And, Minus, Met, Left, Sweep, SomeOf;
    if list == [] {
      SweepEmpty(set_, pc);
      NoneOf(list);
    } else {
      SweepFirst(set_, list, pc);
      var t, rest := list[0], list[1..];
      if Met(set_, pc[t].interest, pc[t].option) {
        var left, pc1 := Left(set_, pc[t].interest, pc[t].option), Release(set_, t, pc);
        SweepInOrder(left, rest, pc1);
        SomeBehind(list, Sweep(left, rest, pc1).waiters);
      } else {
        SweepInOrder(set_, rest, pc);
        SomeBehind(list, Sweep(set_, rest, pc).waiters);
      }
    }
  }

  // ----- the event object -----

  ghost predicate Waiters(waiters: seq<Tid>, pc: map<Tid, Pc>) {
    Distinct(waiters) && forall t :: t in waiters <==> t in pc && pc[t].Waiting?
  }

  /** No suspended thread could have what it waits for. */
  ghost predicate NobodyForgotten(set_: Bits, pc: map<Tid, Pc>) {
    forall t :: t in pc && pc[t].Waiting? ==> !Met(set_, pc[t].interest, pc[t].option)
  }

  ghost predicate Sound(set_: Bits, waiters: seq<Tid>, pc: map<Tid, Pc>) {
    Waiters(waiters, pc) && NobodyForgotten(set_, pc)
  }

  lemma WaitersListed(waiters: seq<Tid>, pc: map<Tid, Pc>)
    requires Waiters(waiters, pc)
    ensures Listed(waiters, pc)
  {
    forall i | 0 <= i < |waiters|
      ensures waiters[i] in pc && pc[waiters[i]].Waiting?
    {
      var t := waiters[i];
      assert t in waiters;
    }
  }

  /** A sweep with whatever bits leaves a sound object. */
  lemma SoundWaiters(set_: Bits, waiters: seq<Tid>, pc: map<Tid, Pc>)
    requires Sound(set_, waiters, pc)
    ensures Waiters(waiters, pc)
  {
  }

  lemma SweepSound(set_: Bits, waiters: seq<Tid>, pc: map<Tid, Pc>)
    requires Waiters(waiters, pc)
    ensures Listed(waiters, pc)
    ensures var r := Sweep(set_, waiters, pc); Sound(r.rest, r.waiters, r.pc) && r.pc.Keys == pc.Keys
  {
    WaitersListed(waiters, pc);
    SweepFrame(set_, waiters, pc);
    SweepLeavesUnmet(set_, waiters, pc);
    var r := Sweep(set_, waiters, pc);
    forall t
      ensures t in r.waiters <==> t in r.pc && r.pc[t].Waiting?
    {
      assert t in waiters <==> t in pc && pc[t].Waiting?;
    }
  }

  datatype Status = Done | Refused | TimedOut | Blocked

  class Event {
    const flag: Flag
    const prio: Priorities
    var set_: Bits
    var waiters: seq<Tid>
    var pc: map<Tid, Pc>

    ghost predicate Valid()
      reads this
    {
      Sound(set_, waiters, pc) && pc.Keys == prio.Keys && Ordered(waiters, prio, flag)
    }

    /** rt_event_init. */
    constructor (flag: Flag, prio: Priorities)
      ensures Valid() && set_ == 0 && waiters == [] && this.flag == flag && this.prio == prio
    {
      this.flag, this.prio := flag, prio;
      set_, waiters := 0, [];
      pc := map t | t in prio :: Idle;
    }

    /** rt_event_send: what becomes of each waiter is what it would have got by asking in its turn. */
    method Send(bits: Bits) returns (status: Status)
      requires Valid()
      modifies this
      ensures Valid()
      ensures status == if bits == 0 then Refused else Done
      ensures bits == 0 ==> set_ == old(set_) && waiters == old(waiters) && pc == old(pc)
      ensures bits != 0 ==> Listed(old(waiters), old(pc)) &&
                            Swept(set_, waiters, pc) == Sweep(Or(old(set_), bits), old(waiters), old(pc))
      ensures forall i :: 0 <= i < 32 ==> (Bit(Or(old(set_), bits), i) <==> Bit(old(set_), i) || Bit(bits, i))
      ensures bits != 0 ==>
                forall k :: 0 <= k < |old(waiters)| ==>
                  var t, p, full := old(waiters)[k], old(pc)[old(waiters)[k]], Or(old(set_), bits);
                  && t in pc && (pc[t].Woken? || (pc[t] == p && t in waiters))
                  && (p.option.all ==>
                        (pc[t].Woken? <==>
                           forall i :: 0 <= i < 32 && Bit(p.interest, i) ==>
                             Offered(full, old(waiters), old(pc), pc, k, i)))
                  && (!p.option.all ==>
                        (pc[t].Woken? <==>
                           p.option.any &&
                           exists i :: 0 <= i < 32 && Bit(p.interest, i) &&
                                       Offered(full, old(waiters), old(pc), pc, k, i)))
                  && (pc[t].Woken? ==>
                        forall i :: 0 <= i < 32 ==>
                          (Bit(pc[t].received, i) <==>
                             Bit(p.interest, i) && Offered(full, old(waiters), old(pc), pc, k, i)))
      ensures bits != 0 ==>
                forall i :: 0 <= i < 32 ==>
                  (Bit(set_, i) <==> Offered(Or(old(set_), bits), old(waiters), old(pc), pc, |old(waiters)|, i))
    {
      hide And, Or, Minus, Within, Waiters, NobodyForgotten, Sound, Sweep, Met, Bit, Offered, Distinct,
           Ordered, SomeOf;
      EveryOr(set_, bits);
      if bits == 0 { return Refused; }
      SoundWaiters(set_, waiters, pc);
      SweepSound(Or(set_, bits), waiters, pc);
      SweepBitwise(Or(set_, bits), waiters, pc);
      SweepInOrder(Or(set_, bits), waiters, pc);
      SomeOrdered(waiters, Sweep(Or(set_, bits), waiters, pc).waiters, prio, flag);
      var s, threads, pc' := Or(set_, bits), waiters, pc;
      var kept: seq<Tid>, n := [], 0;
      ghost var goal := Sweep(s, threads, pc');
      assert threads[0..] == threads;
      while n < |threads|
        invariant n <= |threads| && Listed(threads[n..], pc') && kept <= goal.waiters
        invariant Swept(goal.rest, goal.waiters[|kept|..], goal.pc) == Sweep(s, threads[n..], pc')
      {
        var thread := threads[n];
        assert threads[n..][0] == thread && threads[n..][1..] == threads[n + 1..];
        SweepFirst(s, threads[n..], pc');
        var Waiting(interest, option) := pc'[thread];
        var ok, eventSet := Offer(s, interest, option);
        n := n + 1;
        if ok {
          pc' := pc'[thread := Woken(eventSet, option)];
          if option.clear { s := Minus(s, eventSet); }
        } else {
          KeepsFirst(goal.waiters, kept, thread, Sweep(s, threads[n..], pc').waiters);
          kept := kept + [thread];
        }
      }
      SweepEmpty(s, pc');
      assert threads[n..] == [] && goal.waiters == kept;
      set_, waiters, pc := s, kept, pc';
      forall k | 0 <= k < |threads|
        ensures threads[k] in pc && Decided(Or(old(set_), bits), threads, old(pc), Swept(set_, waiters, pc), k)
      {
        assert Decided(Or(old(set_), bits), threads, old(pc), goal, k);
      }
      return Done;
    }

    /** rt_event_recv until it returns or suspends the thread. */
    method Receive(t: Tid, interest: Bits, option: Option, wait: bool) returns (status: Status, received: Bits)
      requires Valid() && t in pc && pc[t].Idle? && (option.all || option.any)
      modifies this
      ensures Valid()
      ensures status == if interest == 0 then Refused
                        else if Met(old(set_), interest, option) then Done
                        else if wait then Blocked else TimedOut
      ensures status.Done? ==> received == And(old(set_), interest) && set_ == Left(old(set_), interest, option)
      ensures interest != 0 && option.all ==>
                (status.Done? <==> forall i :: 0 <= i < 32 && Bit(interest, i) ==> Bit(old(set_), i))
      ensures interest != 0 && !option.all ==>
                (status.Done? <==> exists i :: 0 <= i < 32 && Bit(interest, i) && Bit(old(set_), i))
      ensures status.Done? ==>
                forall i :: 0 <= i < 32 ==>
                  && (Bit(received, i) <==> Bit(old(set_), i) && Bit(interest, i))
                  && (Bit(set_, i) <==> Bit(old(set_), i) && !(option.clear && Bit(interest, i)))
      ensures !status.Done? ==> set_ == old(set_)
      ensures if status.Blocked?
              then Known(old(waiters), prio) && waiters == Suspended(old(waiters), t, prio, flag) &&
                   pc == old(pc)[t := Waiting(interest, option)]
              else waiters == old(waiters) && pc == old(pc)
    {
      hide And, Minus, Within, Bit;
      MetBits(set_, interest, option);
      EveryBitTaken(set_, interest, option);
      received := 0;
      if interest == 0 { return Refused, 0; }
      var ok := false;
      if option.all {
        if And(set_, interest) == interest { ok := true; }
      } else if option.any {
        if And(set_, interest) != 0 { ok := true; }
      }
      if ok {
        received := And(set_, interest);
        LeftUnmet(set_, interest, option, pc);
        if option.clear { set_ := Minus(set_, interest); }
        return Done, received;
      }
      if !wait { return TimedOut, 0; }
      WaitersListed(waiters, pc);
      assert t !in waiters;
      SuspendedKeeps(waiters, t, prio, flag);
      SuspendedOrdered(waiters, t, prio, flag);
      var list := Suspend(waiters, t, prio, flag);
      waiters, pc := list, pc[t := Waiting(interest, option)];
      return Blocked, 0;
    }

    /** The rest of rt_event_recv in a thread that a sender has resumed. */
    method Collect(t: Tid) returns (received: Bits)
      requires Valid() && t in pc && pc[t].Woken?
      modifies this
      ensures Valid() && set_ == old(set_) && waiters == old(waiters)
      ensures received == old(pc[t]).received && pc == old(pc)[t := Idle]
    {
      received := pc[t].received;
      pc := pc[t := Idle];
    }

    /** rt_thread_timeout on a waiter. */
    method Timeout(t: Tid)
      requires Valid() && t in pc && pc[t].Waiting?
      modifies this
      ensures Valid() && set_ == old(set_)
      ensures waiters == Without(old(waiters), t) && pc == old(pc)[t := Failed]
    {
      WithoutKeeps(waiters, t);
      WithoutOrdered(waiters, t, prio, flag);
      waiters, pc := Without(waiters, t), pc[t := Failed];
    }

    method ReturnError(t: Tid)
      requires Valid() && t in pc && pc[t].Failed?
      modifies this
      ensures Valid() && set_ == old(set_) && waiters == old(waiters) && pc == old(pc)[t := Idle]
    {
      pc := pc[t := Idle];
    }

    /** rt_event_control(RT_IPC_CMD_RESET). */
    method Reset()
      requires Valid()
      modifies this
      ensures Valid() && set_ == 0 && waiters == [] && pc.Keys == old(pc.Keys)
      ensures forall t :: t in pc ==> pc[t] == if old(pc[t]).Waiting? then Failed else old(pc[t])
    {
      var list, pc' := waiters, pc;
      while list != []
        invariant Waiters(list, pc') && pc'.Keys == pc.Keys
        invariant forall t :: t in pc' ==> pc'[t] == pc[t] || (pc[t].Waiting? && pc'[t] == Failed)
        decreases |list|
      {
        var t := list[0];
        assert t in list;
        assert forall x :: x in list[1..] <==> x in list && x != t;
        list, pc' := list[1..], pc'[t := Failed];
      }
      assert forall t :: t in pc' ==> !(t in list);
      set_, waiters, pc := 0, list, pc';
    }
  }

  lemma KeepsFirst(all: seq<Tid>, kept: seq<Tid>, t: Tid, rest: seq<Tid>)
    requires kept <= all && all[|kept|..] == [t] + rest
    ensures kept + [t] <= all && all[|kept + [t]|..] == rest
  {
    assert all == kept + ([t] + rest);
  }

  /** A thread that takes bits leaves the others' conditions unmet. */
  lemma LeftUnmet(set_: Bits, interest: Bits, option: Option, pc: map<Tid, Pc>)
    requires NobodyForgotten(set_, pc)
    ensures NobodyForgotten(Left(set_, interest, option), pc)
  {
    hide And, Minus, Within, Met, Left;
    var left := Left(set_, interest, option);
    LeftWithin(set_, interest, option);
    forall t | t in pc && pc[t].Waiting?
      ensures !Met(left, pc[t].interest, pc[t].option)
    {
      MetMonotone(left, set_, pc[t].interest, pc[t].option);
    }
  }

  // ----- runs -----

  datatype Step =
    | Sends(bits: Bits)
    | Receives(t: Tid, interest: Bits, option: Option, wait: bool)
    | Collects(t: Tid)
    | TimesOut(t: Tid)
    | ReturnsError(t: Tid)
    | Resets

  predicate Enabled(s: Step, pc: map<Tid, Pc>) {
    match s
    case Receives(t, _, option, _) => t in pc && pc[t].Idle? && (option.all || option.any)
    case Collects(t) => t in pc && pc[t].Woken?
    case TimesOut(t) => t in pc && pc[t].Waiting?
    case ReturnsError(t) => t in pc && pc[t].Failed?
    case _ => true
  }

  /** What there is to see of an event set. */
  datatype Board = Board(bits: Bits, waiters: seq<Tid>, pc: map<Tid, Pc>)

  ghost function BoardOf(event: Event): (b: Board)
    reads event
  {
    Board(event.set_, event.waiters, event.pc)
  }

  /** What each step does; one that is not possible does nothing. */
  ghost predicate Did(s: Step, b: Board, b': Board, prio: Priorities, flag: Flag) {
    if !Enabled(s, b.pc) then b' == b
    else
      match s
      case Sends(bits) =>
        if bits == 0 then b' == b
        else
          && Listed(b.waiters, b.pc)
          && Swept(b'.bits, b'.waiters, b'.pc) == Sweep(Or(b.bits, bits), b.waiters, b.pc)
      case Receives(t, interest, option, wait) =>
        if interest == 0 then b' == b
        else if Met(b.bits, interest, option) then b' == b.(bits := Left(b.bits, interest, option))
        else if wait then
          && Known(b.waiters, prio) && t in prio
          && b' == b.(waiters := Suspended(b.waiters, t, prio, flag), pc := b.pc[t := Waiting(interest, option)])
        else b' == b
      case Collects(t) => b' == b.(pc := b.pc[t := Idle])
      case TimesOut(t) => b' == b.(waiters := Without(b.waiters, t), pc := b.pc[t := Failed])
      case ReturnsError(t) => b' == b.(pc := b.pc[t := Idle])
      case Resets =>
        && b'.bits == 0 && b'.waiters == [] && b'.pc.Keys == b.pc.Keys
        && forall t :: t in b.pc ==> b'.pc[t] == if b.pc[t].Waiting? then Failed else b.pc[t]
  }

  method Act(event: Event, s: Step)
    requires event.Valid()
    modifies event
    ensures event.Valid() && Did(s, old(BoardOf(event)), BoardOf(event), event.prio, event.flag)
  {
    hide And, Minus, Met, Or, Left, Sweep;
    if Enabled(s, event.pc) {
      match s
      case Sends(bits) => var _ := event.Send(bits);
      case Receives(t, interest, option, wait) => var _, _ := event.Receive(t, interest, option, wait);
      case Collects(t) => var _ := event.Collect(t);
      case TimesOut(t) => event.Timeout(t);
      case ReturnsError(t) => event.ReturnError(t);
      case Resets => event.Reset();
    }
  }

  // ----- who is asked first -----

  ghost predicate Listing(b: Board, prio: Priorities, flag: Flag) {
    Waiters(b.waiters, b.pc) && Ordered(b.waiters, prio, flag)
  }

  lemma StepInOrder(s: Step, b: Board, b': Board, prio: Priorities, flag: Flag)
    requires Listing(b, prio, flag) && Did(s, b, b', prio, flag)
    ensures NobodyOvertakes(b.waiters, b'.waiters, prio, flag)
  {
    hide And, Or, Minus, Met, Left, Sweep, NobodyOvertakes, Suspended, Ordered;
    var list := b.waiters;
    StaysInPlace(list, prio, flag);
    if Enabled(s, b.pc) {
      match s
      case Sends(bits) =>
        if bits != 0 {
          SweepInOrder(Or(b.bits, bits), list, b.pc);
          SomeStay(list, b'.waiters, prio, flag);
        }
      case Receives(t, interest, option, wait) =>
        if interest != 0 && !Met(b.bits, interest, option) && wait {
          assert t !in list;
          OneJoins(list, t, prio, flag);
        }
      case TimesOut(t) => OneGoes(list, t, prio, flag);
      case Resets => AllGo(list, prio, flag);
      case _ =>
    }
  }

  ghost function WaitLists(boards: seq<Board>): (lists: seq<seq<Tid>>)
    ensures |lists| == |boards|
  {
    seq(|boards|, i requires 0 <= i < |boards| => boards[i].waiters)
  }

  /** In every state, whoever is asked before another is ahead of it. */
  ghost predicate AsksInTurn(boards: seq<Board>, prio: Priorities, flag: Flag) {
    forall i: nat, a, b :: i < |boards| && Precedes(WaitLists(boards)[i], a, b) ==>
      Ahead(WaitLists(boards), i, a, b, prio, flag)
  }

  lemma AllAskedInTurn(boards: seq<Board>, steps: seq<Step>, prio: Priorities, flag: Flag)
    requires |boards| == |steps| + 1 && forall b :: b in boards ==> Listing(b, prio, flag)
    requires forall i :: 0 <= i < |steps| ==> Did(steps[i], boards[i], boards[i + 1], prio, flag)
    ensures AsksInTurn(boards, prio, flag)
  {
    hide Ahead, NobodyOvertakes, Did, Precedes, Ordered;
    var lists := WaitLists(boards);
    forall j | 0 <= j < |lists| - 1
      ensures NobodyOvertakes(lists[j], lists[j + 1], prio, flag)
    {
      assert boards[j] in boards;
      StepInOrder(steps[j], boards[j], boards[j + 1], prio, flag);
    }
    assert boards[0] in boards;
    forall i: nat, a, b | i < |boards| && Precedes(lists[i], a, b)
      ensures Ahead(lists, i, a, b, prio, flag)
    {
      FrontIsAhead(lists, i, a, b, prio, flag);
    }
  }

  /**
   Every run follows the steps, in none of its states does a thread wait for bits it could have, and senders ask
   the waiting threads in turn.
   */
  method Run(event: Event, steps: seq<Step>) returns (ghost boards: seq<Board>)
    requires event.Valid()
    modifies event
    ensures event.Valid()
    ensures |boards| == |steps| + 1 && boards[0] == old(BoardOf(event)) && boards[|steps|] == BoardOf(event)
    ensures forall i :: 0 <= i < |steps| ==> Did(steps[i], boards[i], boards[i + 1], event.prio, event.flag)
    ensures forall b, t :: b in boards && t in b.pc && b.pc[t].Waiting? ==>
              t in b.waiters && !Met(b.bits, b.pc[t].interest, b.pc[t].option)
    ensures AsksInTurn(boards, event.prio, event.flag)
  {
    hide And, Minus, Met, Did, Ordered, AsksInTurn;
    boards := [BoardOf(event)];
    for i := 0 to |steps|
      invariant event.Valid() && |boards| == i + 1 && boards[0] == old(BoardOf(event)) && boards[i] == BoardOf(event)
      invariant forall k :: 0 <= k < i ==> Did(steps[k], boards[k], boards[k + 1], event.prio, event.flag)
      invariant forall b, t :: b in boards && t in b.pc && b.pc[t].Waiting? ==>
                  t in b.waiters && !Met(b.bits, b.pc[t].interest, b.pc[t].option)
      invariant forall b :: b in boards ==> Listing(b, event.prio, event.flag)
    {
      Act(event, steps[i]);
      boards := boards + [BoardOf(event)];
    }
    AllAskedInTurn(boards, steps, event.prio, event.flag);
  }
}
