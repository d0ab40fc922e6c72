/** The page allocator: a list of runs of free pages. */
module PageList {
  import opened Lists

  /** struct rt_page_head: the first free page of a run and the length of the run. */
  datatype Run = Run(start: int, pages: int)

  function End(r: Run): (e: int) {
    r.start + r.pages
  }

  // ----- which pages are free -----

  ghost predicate Free(runs: seq<Run>, x: int) {
    runs != [] && (runs[0].start <= x < End(runs[0]) || Free(runs[1..], x))
  }

  lemma {:induction false} FreeConcat(a: seq<Run>, b: seq<Run>, x: int)
    ensures Free(a + b, x) <==> Free(a, x) || Free(b, x)
  {
    if a == [] {
      assert a + b == b;
    } else {
      assert (a + b)[1..] == a[1..] + b;
      FreeConcat(a[1..], b, x);
    }
  }

  lemma {:induction false} FreeAt(runs: seq<Run>, x: int)
    ensures Free(runs, x) <==> exists i :: 0 <= i < |runs| && runs[i].start <= x < End(runs[i])
  {
    if runs != [] {
      FreeAt(runs[1..], x);
      assert forall i :: 0 <= i < |runs[1..]| ==> runs[1..][i] == runs[i + 1];
      if i :| 0 < i < |runs| && runs[i].start <= x < End(runs[i]) {
        assert runs[1..][i - 1] == runs[i];
      }
    }
  }

  /** Replacing one run changes what is free only inside it and its replacement. */
  lemma FreeReplaced(runs: seq<Run>, i: int, n: int, news: seq<Run>, x: int)
    requires 0 <= i <= i + n <= |runs|
    ensures Free(runs, x) <==> Free(runs[..i], x) || Free(runs[i..i + n], x) || Free(runs[i + n..], x)
    ensures Free(runs[..i] + news + runs[i + n..], x) <==> Free(runs[..i], x) || Free(news, x) || Free(runs[i + n..], x)
  {
    assert runs == runs[..i] + runs[i..i + n] + runs[i + n..];
    FreeConcat(runs[..i] + runs[i..i + n], runs[i + n..], x);
    FreeConcat(runs[..i], runs[i..i + n], x);
    FreeConcat(runs[..i] + news, runs[i + n..], x);
    FreeConcat(runs[..i], news, x);
  }

  // ----- the canonical form -----

  /** Runs in address order, none empty, with a page in use between any two. */
  ghost predicate Canonical(runs: seq<Run>) {
    && (forall i :: 0 <= i < |runs| ==> runs[i].pages > 0)
    && (forall i, j :: 0 <= i < j < |runs| ==> End(runs[i]) < runs[j].start)
  }

  /** The page behind a run is in use, and so is the page before it. */
  lemma AroundRun(runs: seq<Run>, i: int)
    requires Canonical(runs) && 0 <= i < |runs|
    ensures !Free(runs, End(runs[i])) && !Free(runs, runs[i].start - 1)
  {
    FreeAt(runs, End(runs[i]));
    FreeAt(runs, runs[i].start - 1);
  }

  lemma RestFree(runs: seq<Run>, x: int)
    requires Canonical(runs) && runs != []
    ensures Free(runs[1..], x) <==> Free(runs, x) && x >= End(runs[0])
  {
    FreeAt(runs[1..], x);
    if Free(runs[1..], x) {
      var i :| 0 <= i < |runs[1..]| && runs[1..][i].start <= x < End(runs[1..][i]);
      assert runs[1..][i] == runs[i + 1];
    }
  }

  lemma FirstFree(runs: seq<Run>, x: int)
    requires Canonical(runs) && runs != []
    ensures Free(runs, runs[0].start) && (Free(runs, x) ==> runs[0].start <= x)
  {
    FreeAt(runs, x);
  }

  ghost predicate SameFree(r: seq<Run>, s: seq<Run>) {
    forall x :: Free(r, x) <==> Free(s, x)
  }

  /** Lists with the same free pages begin with the same run. */
  lemma SameFirst(r: seq<Run>, s: seq<Run>)
    requires Canonical(r) && Canonical(s) && SameFree(r, s) && r != [] && s != []
    ensures r[0] == s[0]
  {
    FirstFree(r, s[0].start);
    FirstFree(s, r[0].start);
    AroundRun(r, 0);
    AroundRun(s, 0);
    SameFreeAt(r, s, r[0].start);
    SameFreeAt(r, s, s[0].start);
    SameFreeAt(r, s, End(r[0]));
    SameFreeAt(r, s, End(s[0]));
  }

  lemma SameFreeAt(r: seq<Run>, s: seq<Run>, x: int)
    requires SameFree(r, s)
    ensures Free(r, x) <==> Free(s, x)
  {
  }

  lemma SameRest(r: seq<Run>, s: seq<Run>)
    requires Canonical(r) && Canonical(s) && SameFree(r, s) && r != [] && s != [] && r[0] == s[0]
    ensures SameFree(r[1..], s[1..])
  {
    forall x
      ensures Free(r[1..], x) <==> Free(s[1..], x)
    {
      RestFree(r, x);
      RestFree(s, x);
      SameFreeAt(r, s, x);
    }
  }

  /** The list is determined by the set of free pages. */
  lemma {:induction false} CanonicalUnique(r: seq<Run>, s: seq<Run>)
    requires Canonical(r) && Canonical(s) && SameFree(r, s)
    ensures r == s
  {
    hide SameFree, Free;
    if r != [] && s != [] {
      SameFirst(r, s);
      SameRest(r, s);
      CanonicalUnique(r[1..], s[1..]);
      assert r == [r[0]] + r[1..] && s == [s[0]] + s[1..];
    } else {
      SomethingFree(r, s);
    }
  }

  lemma SomethingFree(r: seq<Run>, s: seq<Run>)
    requires Canonical(r) && Canonical(s) && SameFree(r, s)
    ensures r == [] <==> s == []
  {
    var x := if r != [] then r[0].start else if s != [] then s[0].start else 0;
    SameFreeAt(r, s, x);
    if r != [] { FirstFree(r, x); } else if s != [] { FirstFree(s, x); }
  }

  // ----- taking pages -----

  ghost predicate AllFree(runs: seq<Run>, start: int, pages: int) {
    forall x :: start <= x < start + pages ==> Free(runs, x)
  }

  /** Consecutive free pages are in one run. */
  lemma InOneRun(runs: seq<Run>, start: int, pages: int)
    requires Canonical(runs) && pages > 0 && AllFree(runs, start, pages)
    ensures exists i :: 0 <= i < |runs| && runs[i].start <= start && start + pages <= End(runs[i])
  {
    FreeAt(runs, start);
    assert Free(runs, start);
    var i :| 0 <= i < |runs| && runs[i].start <= start < End(runs[i]);
    AroundRun(runs, i);
  }

  lemma RunIsFree(runs: seq<Run>, i: int, pages: int)
    requires 0 <= i < |runs| && pages <= runs[i].pages
    ensures AllFree(runs, runs[i].start, pages)
  {
    forall x | runs[i].start <= x < runs[i].start + pages
      ensures Free(runs, x)
    {
      FreeAt(runs, x);
    }
  }

  ghost function Without(runs: seq<Run>, i: int, pages: int): (r: seq<Run>)
    requires 0 <= i < |runs|
  {
    runs[..i] + (if runs[i].pages > pages then [Run(runs[i].start + pages, runs[i].pages - pages)] else [])
      + runs[i + 1..]
  }

  lemma FreeOne(r: Run, x: int)
    ensures Free([r], x) <==> r.start <= x < End(r)
  {
    assert [r][1..] == [];
  }

  /** What is free in front of a run and behind it. */
  lemma FreeBeside(runs: seq<Run>, i: int, x: int)
    requires Canonical(runs) && 0 <= i < |runs|
    ensures Free(runs[..i], x) ==> x < runs[i].start
    ensures Free(runs[i + 1..], x) ==> x > End(runs[i])
  {
    FreeAt(runs[..i], x);
    FreeAt(runs[i + 1..], x);
  }

  lemma TakeFront(runs: seq<Run>, i: int, pages: int)
    requires Canonical(runs) && 0 <= i < |runs| && 0 < pages <= runs[i].pages
    ensures Canonical(Without(runs, i, pages))
    ensures forall x :: Free(Without(runs, i, pages), x)
                        <==> Free(runs, x) && !(runs[i].start <= x < runs[i].start + pages)
  {
    forall x
      ensures Free(Without(runs, i, pages), x) <==> Free(runs, x) && !(runs[i].start <= x < runs[i].start + pages)
    {
      TakeFrontAt(runs, i, pages, x);
    }
  }

  lemma TakeFrontAt(runs: seq<Run>, i: int, pages: int, x: int)
    requires Canonical(runs) && 0 <= i < |runs| && 0 < pages <= runs[i].pages
    ensures Free(Without(runs, i, pages), x) <==> Free(runs, x) && !(runs[i].start <= x < runs[i].start + pages)
  {
    hide Free, Canonical;
    var rest := Run(runs[i].start + pages, runs[i].pages - pages);
    FreeReplaced(runs, i, 1, if runs[i].pages > pages then [rest] else [], x);
    assert runs[i..i + 1] == [runs[i]];
    FreeOne(runs[i], x);
    FreeOne(rest, x);
    FreeAt([], x);
    FreeBeside(runs, i, x);
  }

  /** The first run that is long enough starts at the lowest address with so many free pages. */
  lemma FirstFit(runs: seq<Run>, i: int, pages: int, start: int)
    requires Canonical(runs) && 0 <= i <= |runs| && pages > 0
    requires forall j :: 0 <= j < i ==> runs[j].pages < pages
    requires AllFree(runs, start, pages)
    ensures i < |runs| && runs[i].start <= start
  {
    InOneRun(runs, start, pages);
    var j :| 0 <= j < |runs| && runs[j].start <= start && start + pages <= End(runs[j]);
    assert j >= i;
  }

  lemma LowestFit(runs: seq<Run>, i: int, pages: int)
    requires Canonical(runs) && 0 <= i < |runs| && pages > 0
    requires forall j :: 0 <= j < i ==> runs[j].pages < pages
    ensures forall a :: AllFree(runs, a, pages) ==> runs[i].start <= a
  {
    hide AllFree, Canonical;
    forall a | AllFree(runs, a, pages)
      ensures runs[i].start <= a
    {
      FirstFit(runs, i, pages, a);
    }
  }

  lemma NoFit(runs: seq<Run>, pages: int)
    requires Canonical(runs) && pages > 0
    requires forall j :: 0 <= j < |runs| ==> runs[j].pages < pages
    ensures forall a :: !AllFree(runs, a, pages)
  {
    hide AllFree, Canonical;
    forall a
      ensures !AllFree(runs, a, pages)
    {
      if AllFree(runs, a, pages) { FirstFit(runs, |runs|, pages, a); }
    }
  }

  // ----- giving pages back -----

  ghost predicate NoneFree(runs: seq<Run>, start: int, pages: int) {
    forall x :: start <= x < start + pages ==> !Free(runs, x)
  }

  /** Pages in use lie before a run or behind it. */
  lemma BesideRun(runs: seq<Run>, i: int, start: int, pages: int)
    requires Canonical(runs) && 0 <= i < |runs| && pages > 0 && NoneFree(runs, start, pages)
    ensures start + pages <= runs[i].start || End(runs[i]) <= start
  {
    FreeAt(runs, start);
    FreeAt(runs, runs[i].start);
  }

  /** One run for some old ones and the pages given back. */
  ghost predicate Covers(r: Run, olds: seq<Run>, start: int, pages: int) {
    forall x :: Free([r], x) <==> Free(olds, x) || start <= x < start + pages
  }

  ghost predicate Taken(before: seq<Run>, after: seq<Run>, start: int, pages: int) {
    forall x :: Free(after, x) <==> Free(before, x) && !(start <= x < start + pages)
  }

  ghost predicate Regained(before: seq<Run>, after: seq<Run>, start: int, pages: int) {
    forall x :: Free(after, x) <==> Free(before, x) || start <= x < start + pages
  }

  lemma CanonicalConcat(a: seq<Run>, b: seq<Run>)
    requires Canonical(a) && Canonical(b) && (a != [] && b != [] ==> End(a[|a| - 1]) < b[0].start)
    ensures Canonical(a + b)
  {
    forall j, k | 0 <= j < k < |a + b|
      ensures End((a + b)[j]) < (a + b)[k].start
    {
      if j < |a| <= k {
        assert End(a[j]) <= End(a[|a| - 1]) && b[0].start <= b[k - |a|].start;
      }
    }
  }

  /** `n` runs from `i` on give way to one that also covers the pages given back. */
  lemma GiveBack(runs: seq<Run>, i: int, n: int, r: Run, start: int, pages: int)
    requires Canonical(runs) && 0 <= i <= i + n <= |runs| && r.pages > 0
    requires i > 0 ==> End(runs[i - 1]) < r.start
    requires i + n < |runs| ==> End(r) < runs[i + n].start
    requires Covers(r, runs[i..i + n], start, pages)
    ensures Canonical(runs[..i] + [r] + runs[i + n..])
    ensures Regained(runs, runs[..i] + [r] + runs[i + n..], start, pages)
  {
    hide Free;
    CanonicalConcat(runs[..i], [r]);
    CanonicalConcat(runs[..i] + [r], runs[i + n..]);
    forall x
      ensures Free(runs[..i] + [r] + runs[i + n..], x) <==> Free(runs, x) || start <= x < start + pages
    {
      FreeReplaced(runs, i, n, [r], x);
    }
  }

  lemma FreeTwo(r: Run, s: Run, x: int)
    ensures Free([r, s], x) <==> r.start <= x < End(r) || s.start <= x < End(s)
  {
    FreeOne(s, x);
    assert [r, s][1..] == [s];
  }

  class PageList {
    var runs: seq<Run>

    ghost predicate Valid()
      reads this
    {
      Canonical(runs)
    }

    /** rt_page_init. */
    constructor (start: int, pages: int)
      requires pages > 0
      ensures Valid() && forall x :: Free(runs, x) <==> start <= x < start + pages
    {
      runs := [Run(start, pages)];
      assert forall x :: Free([Run(start, pages)][1..], x) <==> false;
    }

    /** rt_page_alloc: the lowest so many consecutive free pages, and nothing only if there are none. */
    method Alloc(pages: nat) returns (start: Option<int>)
      requires Valid()
      modifies this
      ensures Valid()
      ensures start.None? ==> runs == old(runs) && (pages == 0 || forall a :: !AllFree(old(runs), a, pages))
      ensures start.Some? ==>
                && pages > 0 && AllFree(old(runs), start.value, pages)
                && (forall a :: AllFree(old(runs), a, pages) ==> start.value <= a)
                && forall x :: Free(runs, x) <==> Free(old(runs), x) && !(start.value <= x < start.value + pages)
    {
      hide Free, Canonical, AllFree;
      if pages == 0 { return None; }
      var i := 0;
      while i < |runs|
        invariant 0 <= i <= |runs| && forall j :: 0 <= j < i ==> runs[j].pages < pages
      {
        var b := runs[i];
        if b.pages >= pages {
          TakeFront(runs, i, pages);
          RunIsFree(runs, i, pages);
          LowestFit(runs, i, pages);
          if b.pages > pages {
            runs := runs[..i] + [Run(b.start + pages, b.pages - pages)] + runs[i + 1..];
          } else {
            assert runs[..i] + [] + runs[i + 1..] == runs[..i] + runs[i + 1..];
            runs := runs[..i] + runs[i + 1..];
          }
          return Some(b.start);
        }
        i := i + 1;
      }
      NoFit(runs, pages);
      return None;
    }

    /** rt_page_free: of pages in use, which then are free. */
    method Release(start: int, pages: nat)
      requires Valid() && pages > 0 && NoneFree(runs, start, pages)
      modifies this
      ensures Valid() && Regained(old(runs), runs, start, pages)
    {
      hide Free, Regained, Canonical, NoneFree;
      var i := 0;
      while i < |runs|
        invariant 0 <= i <= |runs| && runs == old(runs)
        invariant i > 0 ==> End(runs[i - 1]) < start
      {
        var b := runs[i];
        BesideRun(runs, i, start, pages);
        if End(b) == start {
          var wide := b.(pages := b.pages + pages);
          if i + 1 < |runs| && End(wide) == runs[i + 1].start {
            GiveBackBetween(runs, i, start, pages);
            wide := wide.(pages := wide.pages + runs[i + 1].pages);
            runs := runs[..i] + [wide] + runs[i + 2..];
          } else {
            GiveBackBehind(runs, i, start, pages);
            runs := runs[..i] + [wide] + runs[i + 1..];
          }
          return;
        }
        if b.start == start + pages {
          GiveBackBefore(runs, i, start, pages);
          runs := runs[..i] + [Run(start, b.pages + pages)] + runs[i + 1..];
          return;
        }
        if b.start > start + pages { break; }
        i := i + 1;
      }
      GiveBackAlone(runs, i, start, pages);
      runs := runs[..i] + [Run(start, pages)] + runs[i..];
    }

    /** Pages taken and given back leave the list exactly as it was. */
    method AllocRelease(pages: nat)
      requires Valid()
      modifies this
      ensures Valid() && runs == old(runs)
    {
      var start := Alloc(pages);
      if start.Some? {
        Release(start.value, pages);
        CanonicalUnique(old(runs), runs);
      }
    }
  }

  lemma GiveBackBehind(runs: seq<Run>, i: int, start: int, pages: int)
    requires Canonical(runs) && 0 <= i < |runs| && pages > 0 && NoneFree(runs, start, pages) && End(runs[i]) == start
    requires i + 1 < |runs| ==> start + pages != runs[i + 1].start
    ensures var r := runs[..i] + [Run(runs[i].start, runs[i].pages + pages)] + runs[i + 1..];
            Canonical(r) && Regained(runs, r, start, pages)
  {
    hide Regained;
    if i + 1 < |runs| { BesideRun(runs, i + 1, start, pages); }
    assert runs[i..i + 1] == [runs[i]];
    var r := Run(runs[i].start, runs[i].pages + pages);
    forall x
      ensures Free([r], x) <==> Free([runs[i]], x) || start <= x < start + pages
    {
      FreeOne(runs[i], x);
      FreeOne(r, x);
    }
    GiveBack(runs, i, 1, r, start, pages);
  }

  lemma GiveBackBetween(runs: seq<Run>, i: int, start: int, pages: int)
    requires Canonical(runs) && 0 <= i < |runs| - 1 && pages > 0 && NoneFree(runs, start, pages)
    requires End(runs[i]) == start && start + pages == runs[i + 1].start
    ensures var r := runs[..i] + [Run(runs[i].start, runs[i].pages + pages + runs[i + 1].pages)] + runs[i + 2..];
            Canonical(r) && Regained(runs, r, start, pages)
  {
    hide Regained;
    assert runs[i..i + 2] == [runs[i], runs[i + 1]];
    var r := Run(runs[i].start, runs[i].pages + pages + runs[i + 1].pages);
    forall x
      ensures Free([r], x) <==> Free([runs[i], runs[i + 1]], x) || start <= x < start + pages
    {
      FreeTwo(runs[i], runs[i + 1], x);
      FreeOne(r, x);
    }
    GiveBack(runs, i, 2, r, start, pages);
  }

  lemma GiveBackBefore(runs: seq<Run>, i: int, start: int, pages: int)
    requires Canonical(runs) && 0 <= i < |runs| && pages > 0
    requires runs[i].start == start + pages && (i > 0 ==> End(runs[i - 1]) < start)
    ensures var r := runs[..i] + [Run(start, runs[i].pages + pages)] + runs[i + 1..];
            Canonical(r) && Regained(runs, r, start, pages)
  {
    hide Regained;
    assert runs[i..i + 1] == [runs[i]];
    var r := Run(start, runs[i].pages + pages);
    forall x
      ensures Free([r], x) <==> Free([runs[i]], x) || start <= x < start + pages
    {
      FreeOne(runs[i], x);
      FreeOne(r, x);
    }
    GiveBack(runs, i, 1, r, start, pages);
  }

  lemma GiveBackAlone(runs: seq<Run>, i: int, start: int, pages: int)
    requires Canonical(runs) && 0 <= i <= |runs| && pages > 0
    requires (i > 0 ==> End(runs[i - 1]) < start) && (i < |runs| ==> start + pages < runs[i].start)
    ensures var r := runs[..i] + [Run(start, pages)] + runs[i..];
            Canonical(r) && Regained(runs, r, start, pages)
  {
    hide Regained;
    assert runs[i..i + 0] == [];
    forall x
      ensures Free([Run(start, pages)], x) <==> Free([], x) || start <= x < start + pages
    {
      FreeOne(Run(start, pages), x);
    }
    GiveBack(runs, i, 0, Run(start, pages), start, pages);
  }
}
