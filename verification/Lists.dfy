/** Sequences without repetition, and taking elements out of sequences. */
module Lists {

  datatype Option<T> = None | Some(value: T)

  ghost predicate Distinct<T>(list: seq<T>) {
    forall i, j :: 0 <= i < j < |list| ==> list[i] != list[j]
  }

  ghost function Elements(list: seq<int>): (s: set<int>) {
    set n | n in list
  }

  lemma {:induction false} ElementsCount(list: seq<int>)
    requires Distinct(list)
    ensures |Elements(list)| == |list|
  {
    if list != [] {
      ElementsCount(list[1..]);
      assert Elements(list) == {list[0]} + Elements(list[1..]);
    }
  }

  function Without<T(==,!new)>(list: seq<T>, t: T): (r: seq<T>)
    ensures t !in r && forall x :: x in r <==> x in list && x != t
    ensures |r| <= |list|
  {
    if list == [] then []
    else if list[0] == t then Without(list[1..], t)
    else [list[0]] + Without(list[1..], t)
  }

  lemma {:induction false} WithoutAbsent<T(!new)>(list: seq<T>, t: T)
    requires t !in list
    ensures Without(list, t) == list
  {
    if list != [] { WithoutAbsent(list[1..], t); }
  }

  lemma WithoutFirst<T(!new)>(list: seq<T>)
    requires list != [] && Distinct(list)
    ensures Without(list, list[0]) == list[1..]
  {
    WithoutAbsent(list[1..], list[0]);
  }

  lemma {:induction false} WithoutKeeps<T(!new)>(list: seq<T>, t: T)
    requires Distinct(list)
    ensures Distinct(Without(list, t))
  {
    if list != [] {
      WithoutKeeps(list[1..], t);
      if list[0] != t { assert list[0] !in Without(list[1..], t); }
    }
  }

  /** A set has room for no more than its size. */
  lemma {:induction false} DistinctFit<T>(list: seq<T>, s: set<T>)
    requires Distinct(list) && forall x :: x in list ==> x in s
    ensures |list| <= |s|
  {
    if list != [] {
      var rest := list[1..];
      assert forall x :: x in rest ==> x in list;
      forall x | x in rest
        ensures x in s - {list[0]}
      {
        var i :| 0 <= i < |rest| && rest[i] == x;
        assert list[i + 1] == x;
      }
      DistinctFit(rest, s - {list[0]});
    }
  }
}
