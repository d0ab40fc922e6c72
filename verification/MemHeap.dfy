/**
 The memory-heap object: blocks in one ring by address, free blocks in a second ring.

 An item header lies in front of each block; a used item without data closes the pool.  Addresses are
 offsets from the start of the pool.
 */
module MemHeap {
  import opened HeapBlocks
  import opened Lists
  import opened RingList

  const ITEM: int := 24         // RT_MEMHEAP_SIZE
  const MINI_ALLOC: int := 12   // RT_MEMHEAP_MINIALLOC
  const HEAD: int := -1         // the free-list header, which is outside the pool
  const NULL: int := -2

  /** The items' flags and links, the heap's counters, and the bytes of the pool, item headers included. */
  datatype Fields = Fields(
    used: map<int, bool>, next: Links, prev: Links, nextFree: Links, prevFree: Links,
    available: int, maxUsed: int, bytes: seq<int>)

  /** What the links stand for: the blocks by address, the free ones in list order. */
  datatype View = View(blocks: Blocks, free: seq<int>)

  ghost function Ats(bs: Blocks): (r: seq<int>) {
    seq(|bs|, i requires 0 <= i < |bs| => bs[i].at)
  }

  ghost predicate Flags(used: map<int, bool>, bs: Blocks, top: int) {
    && (forall i :: 0 <= i < |bs| ==> bs[i].at in used && used[bs[i].at] == bs[i].used)
    && top in used && used[top]
  }

  /** The free list has exactly the free blocks, but for the ones in `holes` that are on their way. */
  ghost predicate Listed(free: seq<int>, ats: seq<int>, used: map<int, bool>, holes: set<int>) {
    forall a :: a in free <==> a in ats && a in used && !used[a] && a !in holes
  }

  ghost predicate Shape(q: Fields, v: View, top: int, holes: set<int>) {
    && Tiling(v.blocks, top, ITEM)
    && Ring(q.next, q.prev, top, Ats(v.blocks))
    && Flags(q.used, v.blocks, top)
    && Ring(q.nextFree, q.prevFree, HEAD, v.free)
    && Listed(v.free, Ats(v.blocks), q.used, holes)
  }

  // ----- addresses -----

  lemma AtsIn(bs: Blocks, a: int)
    ensures a in Ats(bs) <==> exists i :: 0 <= i < |bs| && bs[i].at == a
  {
    assert forall i :: 0 <= i < |bs| ==> Ats(bs)[i] == bs[i].at;
  }

  /** A cut inside block `i` is the address of no block. */
  lemma CutIsNew(bs: Blocks, top: int, i: nat, cut: int)
    requires Tiling(bs, top, ITEM) && i < |bs| && bs[i].at < cut < bs[i].end
    ensures cut !in Ats(bs) && cut != top && cut > 0
  {
    WithinHeap(bs, top, ITEM, i);
    AtsIn(bs, cut);
    forall j | 0 <= j < |bs|
      ensures bs[j].at != cut
    {
      assert Aligned(bs[j], ITEM);
      if j < i { InOrder(bs, top, ITEM, j, i); } else if j > i { InOrder(bs, top, ITEM, i, j); }
    }
  }

  /** The size of a block is read off its `next` link. */
  lemma NextIsEnd(q: Fields, v: View, top: int, holes: set<int>, i: nat)
    requires Shape(q, v, top, holes) && i < |v.blocks|
    ensures v.blocks[i].at in q.next && q.next[v.blocks[i].at] == v.blocks[i].end
    ensures v.blocks[i].at in q.prev && q.prev[v.blocks[i].at] == if i == 0 then top else v.blocks[i - 1].at
    ensures v.blocks[i].end in q.used
    ensures v.blocks[i].end == if i + 1 < |v.blocks| then v.blocks[i + 1].at else top
    ensures v.blocks[i].at in q.used && q.used[v.blocks[i].at] == v.blocks[i].used
    ensures 0 <= v.blocks[i].at && v.blocks[i].at + ITEM <= v.blocks[i].end <= top && top in q.used && q.used[top]
  {
    hide Listed;
    var ats := Ats(v.blocks);
    assert Linked(q.next, q.prev, Before(top, ats, i), At(top, ats, i));
    assert Linked(q.next, q.prev, Before(top, ats, i + 1), At(top, ats, i + 1));
    WithinHeap(v.blocks, top, ITEM, i);
  }

  // ----- the five changes everything is made of -----

  ghost function Halves(b: Block, cut: int): (r: Blocks) {
    [Block(b.at, cut, b.used), Block(cut, b.end, false)]
  }

  ghost function SplitAt(bs: Blocks, i: nat, cut: int): (r: Blocks)
    requires i < |bs|
  {
    Replace(bs, i, i + 1, Halves(bs[i], cut))
  }

  lemma SplitAts(bs: Blocks, i: nat, cut: int)
    requires i < |bs|
    ensures Ats(SplitAt(bs, i, cut)) == Inserted(Ats(bs), i + 1, cut)
  {
    Replaced(bs, i, i + 1, Halves(bs[i], cut));
  }

  ghost function SplitFields(q: Fields, at: int, cut: int): (r: Fields)
    requires at in q.next
  {
    q.(next := q.next[cut := q.next[at]][at := cut], prev := q.prev[q.next[at] := cut][cut := at],
       used := q.used[cut := false])
  }

  lemma SplitFlags(used: map<int, bool>, bs: Blocks, top: int, i: nat, cut: int)
    requires Flags(used, bs, top) && i < |bs| && cut !in Ats(bs) && cut != top
    ensures Flags(used[cut := false], SplitAt(bs, i, cut), top)
  {
    Replaced(bs, i, i + 1, Halves(bs[i], cut));
    assert forall k :: 0 <= k < |bs| ==> Ats(bs)[k] == bs[k].at;
    hide Replace;
  }

  lemma SplitListed(free: seq<int>, ats: seq<int>, used: map<int, bool>, holes: set<int>, k: nat, cut: int)
    requires Listed(free, ats, used, holes) && k <= |ats| && cut !in ats
    ensures Listed(free, Inserted(ats, k, cut), used[cut := false], holes + {cut})
  {
    assert ats == ats[..k] + ats[k..];
  }

  lemma SplitStep(q: Fields, v: View, top: int, holes: set<int>, i: nat, cut: int)
    requires Shape(q, v, top, holes) && i < |v.blocks|
    requires v.blocks[i].at + ITEM <= cut && cut + ITEM <= v.blocks[i].end && cut % RT_ALIGN_SIZE == 0
    ensures v.blocks[i].at in q.next
    ensures Shape(SplitFields(q, v.blocks[i].at, cut), v.(blocks := SplitAt(v.blocks, i, cut)), top, holes + {cut})
  {
    hide Ring, Flags, Listed, Replace;
    var bs := v.blocks;
    assert Aligned(bs[i], ITEM);
    CutIsNew(bs, top, i, cut);
    ReplaceTiling(bs, top, ITEM, i, i + 1, Halves(bs[i], cut));
    SplitAts(bs, i, cut);
    assert Before(top, Ats(bs), i + 1) == bs[i].at;
    InsertAfter(q.next, q.prev, top, Ats(bs), i + 1, cut);
    SplitFlags(q.used, bs, top, i, cut);
    SplitListed(v.free, Ats(bs), q.used, holes, i + 1, cut);
  }

  ghost function JoinedWith(bs: Blocks, i: nat): (r: Blocks)
    requires i + 1 < |bs|
  {
    Replace(bs, i, i + 2, [Block(bs[i].at, bs[i + 1].end, bs[i].used)])
  }

  lemma JoinAts(bs: Blocks, i: nat)
    requires i + 1 < |bs|
    ensures Ats(JoinedWith(bs, i)) == Removed(Ats(bs), i + 1)
  {
    Replaced(bs, i, i + 2, [Block(bs[i].at, bs[i + 1].end, bs[i].used)]);
  }

  ghost function JoinFields(q: Fields, at: int, n: int): (r: Fields)
    requires n in q.next
  {
    q.(next := q.next[at := q.next[n]], prev := q.prev[q.next[n] := at])
  }

  lemma JoinFlags(used: map<int, bool>, bs: Blocks, top: int, i: nat)
    requires Flags(used, bs, top) && i + 1 < |bs|
    ensures Flags(used, JoinedWith(bs, i), top)
  {
    Replaced(bs, i, i + 2, [Block(bs[i].at, bs[i + 1].end, bs[i].used)]);
    hide Replace;
  }

  lemma JoinListed(free: seq<int>, ats: seq<int>, used: map<int, bool>, holes: set<int>, k: nat)
    requires Listed(free, ats, used, holes) && k < |ats| && ats[k] !in free && Distinct(ats)
    ensures Listed(free, Removed(ats, k), used, holes - {ats[k]})
  {
    assert ats == ats[..k] + [ats[k]] + ats[k + 1..];
    assert forall a :: a in Removed(ats, k) <==> a in ats && a != ats[k];
  }

  lemma JoinStep(q: Fields, v: View, top: int, holes: set<int>, i: nat)
    requires Shape(q, v, top, holes) && i + 1 < |v.blocks| && v.blocks[i + 1].at !in v.free
    ensures v.blocks[i + 1].at in q.next
    ensures Shape(JoinFields(q, v.blocks[i].at, v.blocks[i + 1].at), v.(blocks := JoinedWith(v.blocks, i)), top,
                  holes - {v.blocks[i + 1].at})
  {
    hide Flags, Listed, Replace;
    var bs, ats := v.blocks, Ats(v.blocks);
    assert Aligned(bs[i], ITEM) && Aligned(bs[i + 1], ITEM);
    ReplaceTiling(bs, top, ITEM, i, i + 2, [Block(bs[i].at, bs[i + 1].end, bs[i].used)]);
    JoinAts(bs, i);
    assert ats[i + 1] == bs[i + 1].at && Before(top, ats, i + 1) == bs[i].at;
    JoinListed(v.free, ats, q.used, holes, i + 1);
    JoinFlags(q.used, bs, top, i);
    Remove(q.next, q.prev, top, ats, i + 1);
  }

  ghost function UnlistFields(q: Fields, a: int): (r: Fields)
    requires a in q.nextFree && a in q.prevFree
  {
    q.(nextFree := q.nextFree[q.prevFree[a] := q.nextFree[a]], prevFree := q.prevFree[q.nextFree[a] := q.prevFree[a]])
  }

  lemma UnlistStep(q: Fields, v: View, top: int, holes: set<int>, k: nat)
    requires Shape(q, v, top, holes) && k < |v.free|
    ensures v.free[k] in q.nextFree && v.free[k] in q.prevFree
    ensures Shape(UnlistFields(q, v.free[k]), v.(free := Removed(v.free, k)), top, holes + {v.free[k]})
  {
    hide Flags, Tiling;
    var a := v.free[k];
    Remove(q.nextFree, q.prevFree, HEAD, v.free, k);
    assert v.free == v.free[..k] + [a] + v.free[k + 1..];
    assert forall x :: x in Removed(v.free, k) <==> x in v.free && x != a;
    hide Ring;
  }

  ghost function ListFields(q: Fields, a: int): (r: Fields)
    requires HEAD in q.nextFree
  {
    q.(nextFree := q.nextFree[a := q.nextFree[HEAD]][HEAD := a],
       prevFree := q.prevFree[q.nextFree[HEAD] := a][a := HEAD])
  }

  lemma ListStep(q: Fields, v: View, top: int, holes: set<int>, i: nat)
    requires Shape(q, v, top, holes) && i < |v.blocks| && !v.blocks[i].used && v.blocks[i].at in holes
    ensures HEAD in q.nextFree
    ensures Shape(ListFields(q, v.blocks[i].at), v.(free := [v.blocks[i].at] + v.free), top, holes - {v.blocks[i].at})
  {
    var a := v.blocks[i].at;
    WithinHeap(v.blocks, top, ITEM, i);
    AtsIn(v.blocks, a);
    hide Tiling;
    assert a !in v.free;
    InsertAfter(q.nextFree, q.prevFree, HEAD, v.free, 0, a);
    assert Inserted(v.free, 0, a) == [a] + v.free;
    hide Ring;
  }

  ghost function MarkedAs(bs: Blocks, i: nat, used: bool): (r: Blocks)
    requires i < |bs|
  {
    Replace(bs, i, i + 1, [bs[i].(used := used)])
  }

  lemma MarkAts(bs: Blocks, i: nat, used: bool)
    requires i < |bs|
    ensures Ats(MarkedAs(bs, i, used)) == Ats(bs)
  {
    Replaced(bs, i, i + 1, [bs[i].(used := used)]);
  }

  lemma MarkFlags(flags: map<int, bool>, bs: Blocks, top: int, i: nat, used: bool)
    requires Flags(flags, bs, top) && Tiling(bs, top, ITEM) && i < |bs|
    ensures Flags(flags[bs[i].at := used], MarkedAs(bs, i, used), top)
  {
    var r := MarkedAs(bs, i, used);
    Replaced(bs, i, i + 1, [bs[i].(used := used)]);
    hide Replace, Tiling;
    WithinHeap(bs, top, ITEM, i);
    forall k | 0 <= k < |r|
      ensures r[k].at in flags[bs[i].at := used] && flags[bs[i].at := used][r[k].at] == r[k].used
    {
      OffsetOrder(bs, top, ITEM, i, k);
    }
  }

  lemma MarkListed(free: seq<int>, ats: seq<int>, used: map<int, bool>, holes: set<int>, a: int, u: bool)
    requires Listed(free, ats, used, holes) && a in ats && a !in free
    ensures Listed(free, ats, used[a := u], if u then holes - {a} else holes + {a})
  {
  }

  lemma MarkStep(q: Fields, v: View, top: int, holes: set<int>, i: nat, used: bool)
    requires Shape(q, v, top, holes) && i < |v.blocks| && v.blocks[i].at !in v.free
    ensures Shape(q.(used := q.used[v.blocks[i].at := used]), v.(blocks := MarkedAs(v.blocks, i, used)), top,
                  if used then holes - {v.blocks[i].at} else holes + {v.blocks[i].at})
  {
    hide Ring, Flags, Listed, Replace;
    var bs := v.blocks;
    assert Aligned(bs[i], ITEM);
    ReplaceTiling(bs, top, ITEM, i, i + 1, [bs[i].(used := used)]);
    MarkAts(bs, i, used);
    AtsIn(bs, bs[i].at);
    MarkFlags(q.used, bs, top, i, used);
    MarkListed(v.free, Ats(bs), q.used, holes, bs[i].at, used);
  }

  // ----- totals -----

  function SizeOf(b: Block): (n: int) {
    b.end - b.at - ITEM
  }

  ghost function FreeSize(b: Block): (n: int) {
    if b.used then 0 else SizeOf(b)
  }

  /** The bytes in free blocks, headers left out. */
  ghost function FreeTotal(bs: Blocks): (n: int) {
    if bs == [] then 0 else FreeSize(bs[0]) + FreeTotal(bs[1..])
  }

  lemma {:induction false} FreeTotalConcat(a: Blocks, b: Blocks)
    ensures FreeTotal(a + b) == FreeTotal(a) + FreeTotal(b)
  {
    if a == [] {
      assert a + b == b;
    } else {
      assert (a + b)[1..] == a[1..] + b;
      FreeTotalConcat(a[1..], b);
    }
  }

  lemma FreeTotalFew(a: Block, b: Block)
    ensures FreeTotal([a]) == FreeSize(a) && FreeTotal([a, b]) == FreeSize(a) + FreeSize(b)
  {
    assert [a][1..] == [] && [a, b][1..] == [b] && [b][1..] == [];
  }

  lemma ReplaceFreeTotal(bs: Blocks, i: nat, j: nat, mid: Blocks)
    requires i <= j <= |bs|
    ensures FreeTotal(Replace(bs, i, j, mid)) == FreeTotal(bs) - FreeTotal(bs[i..j]) + FreeTotal(mid)
  {
    hide FreeTotal;
    var a, b, c := bs[..i], bs[i..j], bs[j..];
    assert bs == a + (b + c) && Replace(bs, i, j, mid) == a + (mid + c);
    FreeTotalConcat(a, b + c);
    FreeTotalConcat(b, c);
    FreeTotalConcat(mid, c);
    FreeTotalConcat(a, mid + c);
  }

  lemma SplitTotal(bs: Blocks, i: nat, cut: int)
    requires i < |bs|
    ensures FreeTotal(SplitAt(bs, i, cut)) ==
            FreeTotal(bs) + if bs[i].used then bs[i].end - cut - ITEM else -ITEM
  {
    hide FreeTotal, Replace;
    ReplaceFreeTotal(bs, i, i + 1, Halves(bs[i], cut));
    assert bs[i..i + 1] == [bs[i]];
    FreeTotalFew(bs[i], bs[i]);
    FreeTotalFew(Halves(bs[i], cut)[0], Halves(bs[i], cut)[1]);
  }

  lemma JoinTotal(bs: Blocks, i: nat)
    requires i + 1 < |bs| && bs[i].end == bs[i + 1].at
    ensures FreeTotal(JoinedWith(bs, i)) ==
            FreeTotal(bs) - FreeSize(bs[i + 1]) + if bs[i].used then 0 else SizeOf(bs[i + 1]) + ITEM
  {
    hide FreeTotal, Replace;
    var b := Block(bs[i].at, bs[i + 1].end, bs[i].used);
    ReplaceFreeTotal(bs, i, i + 2, [b]);
    assert bs[i..i + 2] == [bs[i], bs[i + 1]];
    FreeTotalFew(bs[i], bs[i + 1]);
    FreeTotalFew(b, b);
  }

  lemma MarkTotal(bs: Blocks, i: nat, used: bool)
    requires i < |bs|
    ensures FreeTotal(MarkedAs(bs, i, used)) == FreeTotal(bs) - FreeSize(bs[i]) + if used then 0 else SizeOf(bs[i])
  {
    hide FreeTotal, Replace;
    ReplaceFreeTotal(bs, i, i + 1, [bs[i].(used := used)]);
    assert bs[i..i + 1] == [bs[i]];
    FreeTotalFew(bs[i], bs[i]);
    FreeTotalFew(bs[i].(used := used), bs[i]);
  }

  lemma {:induction false} FreeTotalAtLeast(bs: Blocks, i: nat)
    requires AllAligned(bs, ITEM) && i < |bs|
    ensures FreeTotal(bs) >= FreeSize(bs[i]) >= 0
  {
    assert Aligned(bs[0], ITEM);
    if i > 0 {
      FreeTotalAtLeast(bs[1..], i - 1);
    } else if |bs| > 1 {
      FreeTotalAtLeast(bs[1..], 0);
    } else {
      assert bs[1..] == [];
    }
  }

  // ----- no two free neighbours -----

  /** A free block given away, in part or as a whole. */
  ghost function Given(bs: Blocks, i: nat, size: nat): (r: Blocks)
    requires i < |bs|
  {
    if SizeOf(bs[i]) >= size + ITEM + MINI_ALLOC then MarkedAs(SplitAt(bs, i, bs[i].at + ITEM + size), i, true)
    else MarkedAs(bs, i, true)
  }

  /** The block is split exactly if the rest can hold a smallest block. */
  lemma GivenIs(bs: Blocks, i: nat, size: nat)
    requires i < |bs|
    ensures var b := bs[i];
            var p := b.at + ITEM;
            Given(bs, i, size) ==
            if p + size + ITEM + MINI_ALLOC <= b.end
            then bs[..i] + [Block(b.at, p + size, true), Block(p + size, b.end, false)] + bs[i + 1..]
            else bs[..i] + [Block(b.at, b.end, true)] + bs[i + 1..]
  {
    var cut := bs[i].at + ITEM + size;
    SplitShape(bs, i, cut);
    MarkShape(bs, i, true);
    MarkShape(SplitAt(bs, i, cut), i, true);
    hide SplitAt, MarkedAs;
  }

  lemma SplitShape(bs: Blocks, i: nat, cut: int)
    requires i < |bs|
    ensures var r := SplitAt(bs, i, cut);
            && |r| == |bs| + 1 && r[i] == Block(bs[i].at, cut, bs[i].used) && r[i + 1] == Block(cut, bs[i].end, false)
            && (forall k :: 0 <= k < i ==> r[k] == bs[k]) && (forall k :: i + 1 < k < |r| ==> r[k] == bs[k - 1])
  {
    Replaced(bs, i, i + 1, Halves(bs[i], cut));
  }

  lemma MarkShape(bs: Blocks, i: nat, used: bool)
    requires i < |bs|
    ensures MarkedAs(bs, i, used) == bs[i := bs[i].(used := used)]
  {
    Replaced(bs, i, i + 1, [bs[i].(used := used)]);
  }

  lemma JoinShape(bs: Blocks, i: nat)
    requires i + 1 < |bs|
    ensures var r := JoinedWith(bs, i);
            && |r| == |bs| - 1 && r[i] == Block(bs[i].at, bs[i + 1].end, bs[i].used)
            && (forall k :: 0 <= k < i ==> r[k] == bs[k]) && (forall k :: i < k < |r| ==> r[k] == bs[k + 1])
  {
    Replaced(bs, i, i + 2, [Block(bs[i].at, bs[i + 1].end, bs[i].used)]);
  }

  lemma GivenSparse(bs: Blocks, i: nat, size: nat)
    requires i < |bs| && !bs[i].used && NoTwoFree(bs)
    ensures NoTwoFree(Given(bs, i, size))
  {
    hide Replace;
    var cut := bs[i].at + ITEM + size;
    SplitShape(bs, i, cut);
    MarkShape(bs, i, true);
    MarkShape(SplitAt(bs, i, cut), i, true);
    hide SplitAt, MarkedAs;
    if SizeOf(bs[i]) >= size + ITEM + MINI_ALLOC {
      var r := Given(bs, i, size);
      forall k | 0 <= k < |r| - 1
        ensures r[k].used || r[k + 1].used
      {
        if k > i { assert bs[k - 1].used || bs[k].used; } else if k < i - 1 { assert bs[k].used || bs[k + 1].used; }
      }
    }
  }

  // ----- headers lie among the bytes -----

  /** The bytes after the header of the item at `a` has been written; the list head is not in the pool. */
  function Zeroed(bytes: seq<int>, a: int): (r: seq<int>)
    ensures |r| == |bytes|
  {
    seq(|bytes|, k requires 0 <= k < |bytes| => if a <= k < a + ITEM && a != HEAD then 0 else bytes[k])
  }

  /** Writing fields of items overwrites the bytes of their headers. */
  function Stamped(bytes: seq<int>, items: seq<int>): (r: seq<int>)
    ensures |r| == |bytes|
  {
    if items == [] then bytes else Zeroed(Stamped(bytes, items[1..]), items[0])
  }

  /** Byte `k` lies behind the header of some block. */
  ghost predicate InData(bs: Blocks, k: int) {
    exists i :: 0 <= i < |bs| && bs[i].at + ITEM <= k < bs[i].end
  }

  /** The bytes behind headers are the same. */
  ghost predicate DataSame(bs: Blocks, a: seq<int>, b: seq<int>) {
    |b| == |a| && forall k :: 0 <= k < |a| && InData(bs, k) ==> b[k] == a[k]
  }

  ghost predicate Item(bs: Blocks, top: int, a: int) {
    a == HEAD || a == top || exists i :: 0 <= i < |bs| && bs[i].at == a
  }

  lemma ZeroedData(bytes: seq<int>, bs: Blocks, top: int, a: int)
    requires Tiling(bs, top, ITEM) && Item(bs, top, a)
    ensures DataSame(bs, bytes, Zeroed(bytes, a))
  {
    forall k | 0 <= k < |bytes| && InData(bs, k)
      ensures Zeroed(bytes, a)[k] == bytes[k]
    {
      var j :| 0 <= j < |bs| && bs[j].at + ITEM <= k < bs[j].end;
      DataOutsideHeader(bs, top, j, k, a);
    }
  }

  lemma DataOutsideHeader(bs: Blocks, top: int, j: nat, k: int, a: int)
    requires Tiling(bs, top, ITEM) && Item(bs, top, a) && j < |bs| && bs[j].at + ITEM <= k < bs[j].end
    ensures a != HEAD ==> k < a || a + ITEM <= k
  {
    WithinHeap(bs, top, ITEM, j);
    if i :| 0 <= i < |bs| && bs[i].at == a && i != j {
      Disjoint(bs, top, ITEM, i, j);
      WithinHeap(bs, top, ITEM, i);
    }
  }

  lemma {:induction false} StampedData(bytes: seq<int>, bs: Blocks, top: int, items: seq<int>)
    requires Tiling(bs, top, ITEM) && forall i :: 0 <= i < |items| ==> Item(bs, top, items[i])
    ensures DataSame(bs, bytes, Stamped(bytes, items))
  {
    hide Tiling, Item, InData, Zeroed;
    if items != [] {
      StampedData(bytes, bs, top, items[1..]);
      ZeroedData(Stamped(bytes, items[1..]), bs, top, items[0]);
    }
  }

  lemma DataTrans(bs: Blocks, a: seq<int>, b: seq<int>, c: seq<int>)
    requires DataSame(bs, a, b) && DataSame(bs, b, c)
    ensures DataSame(bs, a, c)
  {
    hide InData;
  }

  lemma DataLess(bs: Blocks, bs': Blocks, a: seq<int>, b: seq<int>)
    requires DataSame(bs, a, b) && forall k :: InData(bs', k) ==> InData(bs, k)
    ensures DataSame(bs', a, b)
  {
    hide InData;
  }

  /** Bytes that a block holds are the same through three steps, none of which lets go of any. */
  lemma DataThrough(bs: Blocks, bs0: Blocks, bs1: Blocks, bs2: Blocks, a: seq<int>, b0: seq<int>, b1: seq<int>,
                    b2: seq<int>, b3: seq<int>)
    requires DataSame(bs, a, b0) && DataSame(bs0, b0, b1) && DataSame(bs1, b1, b2) && DataSame(bs2, b2, b3)
    requires forall k :: InData(bs, k) ==> InData(bs0, k)
    requires forall k :: InData(bs0, k) ==> InData(bs1, k)
    requires forall k :: InData(bs1, k) ==> InData(bs2, k)
    ensures DataSame(bs, a, b3) && |a| == |b3|
  {
    hide InData;
  }

  lemma DataItself(bs: Blocks, a: seq<int>)
    ensures DataSame(bs, a, a)
  {
  }

  /** The bytes behind headers both before and after are the same. */
  ghost predicate BothSame(bs: Blocks, bs': Blocks, a: seq<int>, b: seq<int>) {
    |b| == |a| && forall k :: 0 <= k < |a| && InData(bs, k) && InData(bs', k) ==> b[k] == a[k]
  }

  lemma BothParts(bs: Blocks, bs': Blocks, a: seq<int>, b: seq<int>, c: seq<int>)
    requires DataSame(bs, a, b) && DataSame(bs', b, c)
    ensures BothSame(bs, bs', a, c) && |c| == |a|
  {
    hide InData;
  }

  lemma SameLength(bs: Blocks, a: seq<int>, b: seq<int>)
    requires DataSame(bs, a, b)
    ensures |a| == |b|
  {
  }

  lemma JoinData(bs: Blocks, i: nat)
    requires i + 1 < |bs| && bs[i].at <= bs[i].end <= bs[i + 1].at + ITEM && bs[i].end <= bs[i + 1].end
    requires bs[i].at <= bs[i + 1].at
    ensures forall k :: InData(bs, k) ==> InData(JoinedWith(bs, i), k)
  {
    JoinShape(bs, i);
    hide JoinedWith;
    var r := JoinedWith(bs, i);
    forall k | InData(bs, k)
      ensures InData(r, k)
    {
      var j :| 0 <= j < |bs| && bs[j].at + ITEM <= k < bs[j].end;
      var j' := if j <= i then j else j - 1;
      assert r[j'].at + ITEM <= k < r[j'].end;
    }
  }

  lemma MarkData(bs: Blocks, i: nat, used: bool)
    requires i < |bs|
    ensures forall k :: InData(bs, k) <==> InData(MarkedAs(bs, i, used), k)
  {
    MarkShape(bs, i, used);
    hide MarkedAs;
    var r := MarkedAs(bs, i, used);
    assert forall j :: 0 <= j < |bs| ==> r[j].at == bs[j].at && r[j].end == bs[j].end;
    forall k
      ensures InData(bs, k) <==> InData(r, k)
    {
      if j :| 0 <= j < |bs| && bs[j].at + ITEM <= k < bs[j].end { assert r[j].at + ITEM <= k < r[j].end; }
      if j :| 0 <= j < |r| && r[j].at + ITEM <= k < r[j].end { assert bs[j].at + ITEM <= k < bs[j].end; }
    }
  }

  /** What the links of a sound heap lead to are items. */
  lemma ItemsOf(q: Fields, v: View, top: int, holes: set<int>, i: nat)
    requires Shape(q, v, top, holes) && i < |v.blocks|
    ensures Tiling(v.blocks, top, ITEM) && Item(v.blocks, top, v.blocks[i].at) && Item(v.blocks, top, v.blocks[i].end)
  {
    hide Ring, Flags, Listed;
    WithinHeap(v.blocks, top, ITEM, i);
    assert i + 1 < |v.blocks| ==> v.blocks[i + 1].at == v.blocks[i].end;
  }

  lemma FreeItems(q: Fields, v: View, top: int, holes: set<int>, a: int)
    requires Shape(q, v, top, holes) && (a == HEAD || a in v.free)
    ensures Tiling(v.blocks, top, ITEM) && Item(v.blocks, top, a)
    ensures a in q.nextFree && a in q.prevFree
    ensures Item(v.blocks, top, q.nextFree[a]) && Item(v.blocks, top, q.prevFree[a])
  {
    hide Tiling, Flags;
    RingNeighbours(q.nextFree, q.prevFree, HEAD, v.free, a);
    ListedItem(v.free, v.blocks, q.used, holes, top, a);
    ListedItem(v.free, v.blocks, q.used, holes, top, q.nextFree[a]);
    ListedItem(v.free, v.blocks, q.used, holes, top, q.prevFree[a]);
  }

  lemma ListedItem(free: seq<int>, bs: Blocks, used: map<int, bool>, holes: set<int>, top: int, a: int)
    requires Listed(free, Ats(bs), used, holes) && (a == HEAD || a in free)
    ensures Item(bs, top, a)
  {
    AtsIn(bs, a);
  }

  // ----- the changes, link by link -----

  /** A new item behind the one at `at`. */
  method Split(m: Fields, at: int, cut: int, ghost v: View, ghost top: int, ghost holes: set<int>, ghost i: nat)
    returns (r: Fields, ghost w: View)
    requires Shape(m, v, top, holes) && i < |v.blocks| && v.blocks[i].at == at
    requires at + ITEM <= cut && cut + ITEM <= v.blocks[i].end && cut % RT_ALIGN_SIZE == 0
    ensures w == v.(blocks := SplitAt(v.blocks, i, cut)) && Shape(r, w, top, holes + {cut})
    ensures r.available == m.available && r.maxUsed == m.maxUsed
    ensures FreeTotal(w.blocks)
            == FreeTotal(v.blocks) + if v.blocks[i].used then v.blocks[i].end - cut - ITEM else -ITEM
    ensures DataSame(w.blocks, m.bytes, r.bytes)
  {
    hide Shape, SplitAt, FreeTotal, DataSame, Item, Stamped;
    NextIsEnd(m, v, top, holes, i);
    SplitShape(v.blocks, i, cut);
    SplitStep(m, v, top, holes, i, cut);
    SplitTotal(v.blocks, i, cut);
    r := m.(used := m.used[cut := false]);
    var behind := r.next[at];
    r := r.(prev := r.prev[behind := cut][cut := at]);
    r := r.(next := r.next[cut := behind][at := cut]);
    w := v.(blocks := SplitAt(v.blocks, i, cut));
    ItemsOf(r, w, top, holes + {cut}, i);
    ItemsOf(r, w, top, holes + {cut}, i + 1);
    r := Write(r, [cut, behind, at], w, top, holes + {cut});
  }

  /** The headers of items are written. */
  method Write(m: Fields, items: seq<int>, ghost v: View, ghost top: int, ghost holes: set<int>) returns (r: Fields)
    requires Shape(m, v, top, holes) && forall i :: 0 <= i < |items| ==> Item(v.blocks, top, items[i])
    ensures Shape(r, v, top, holes) && r == m.(bytes := r.bytes) && DataSame(v.blocks, m.bytes, r.bytes)
  {
    StampedData(m.bytes, v.blocks, top, items);
    r := m.(bytes := Stamped(m.bytes, items));
    SameShape(m, r, v, top, holes);
  }

  /** The item at `at` takes over the one behind it. */
  method Join(m: Fields, at: int, ghost v: View, ghost top: int, ghost holes: set<int>, ghost i: nat)
    returns (r: Fields, ghost w: View)
    requires Shape(m, v, top, holes) && i + 1 < |v.blocks| && v.blocks[i].at == at && v.blocks[i + 1].at !in v.free
    ensures w == v.(blocks := JoinedWith(v.blocks, i)) && Shape(r, w, top, holes - {v.blocks[i + 1].at})
    ensures r.available == m.available && r.maxUsed == m.maxUsed
    ensures FreeTotal(w.blocks) == FreeTotal(v.blocks) - FreeSize(v.blocks[i + 1]) +
                                   if v.blocks[i].used then 0 else SizeOf(v.blocks[i + 1]) + ITEM
    ensures DataSame(v.blocks, m.bytes, r.bytes)
  {
    NextIsEnd(m, v, top, holes, i);
    NextIsEnd(m, v, top, holes, i + 1);
    JoinShape(v.blocks, i);
    JoinData(v.blocks, i);
    hide Shape, JoinedWith, FreeTotal, DataSame, Item, InData;
    JoinStep(m, v, top, holes, i);
    JoinTotal(v.blocks, i);
    var behind := m.next[m.next[at]];
    r := m.(prev := m.prev[behind := at]);
    r := r.(next := r.next[at := behind]);
    w := v.(blocks := JoinedWith(v.blocks, i));
    ItemsOf(r, w, top, holes - {v.blocks[i + 1].at}, i);
    r := Write(r, [behind, at], w, top, holes - {v.blocks[i + 1].at});
    DataLess(w.blocks, v.blocks, m.bytes, r.bytes);
  }

  /** An item leaves the free list. */
  method Unlist(m: Fields, a: int, ghost v: View, ghost top: int, ghost holes: set<int>, ghost k: nat)
    returns (r: Fields, ghost w: View)
    requires Shape(m, v, top, holes) && k < |v.free| && v.free[k] == a
    ensures w == v.(free := Without(v.free, a)) && Shape(r, w, top, holes + {a}) && a !in w.free
    ensures r.available == m.available && r.maxUsed == m.maxUsed && r.next == m.next && r.used == m.used
    ensures DataSame(v.blocks, m.bytes, r.bytes)
  {
    UnlistStep(m, v, top, holes, k);
    FreeItems(m, v, top, holes, a);
    RemovedIsWithout(v.free, k);
    hide Shape, DataSame, Item;
    r := m.(prevFree := m.prevFree[m.nextFree[a] := m.prevFree[a]]);
    r := r.(nextFree := r.nextFree[m.prevFree[a] := m.nextFree[a]]);
    w := v.(free := Removed(v.free, k));
    r := Write(r, [m.nextFree[a], m.prevFree[a]], w, top, holes + {a});
    NotListed(r, w, top, holes + {a}, a);
  }

  /** A free item joins the free list in front. */
  method List(m: Fields, a: int, ghost v: View, ghost top: int, ghost holes: set<int>, ghost i: nat)
    returns (r: Fields, ghost w: View)
    requires Shape(m, v, top, holes) && i < |v.blocks| && !v.blocks[i].used && v.blocks[i].at == a && a in holes
    ensures w == v.(free := [a] + v.free) && Shape(r, w, top, holes - {a})
    ensures r.available == m.available && r.maxUsed == m.maxUsed && r.next == m.next && r.used == m.used
    ensures DataSame(v.blocks, m.bytes, r.bytes)
  {
    ListStep(m, v, top, holes, i);
    FreeItems(m, v, top, holes, HEAD);
    ItemsOf(m, v, top, holes, i);
    hide Shape, DataSame, Item;
    var first := m.nextFree[HEAD];
    r := m.(prevFree := m.prevFree[first := a][a := HEAD]);
    r := r.(nextFree := r.nextFree[a := first][HEAD := a]);
    w := v.(free := [a] + v.free);
    r := Write(r, [first, a, HEAD], w, top, holes - {a});
  }

  method Mark(m: Fields, a: int, used: bool, ghost v: View, ghost top: int, ghost holes: set<int>, ghost i: nat)
    returns (r: Fields, ghost w: View)
    requires Shape(m, v, top, holes) && i < |v.blocks| && v.blocks[i].at == a && a !in v.free
    ensures w == v.(blocks := MarkedAs(v.blocks, i, used))
    ensures Shape(r, w, top, if used then holes - {a} else holes + {a})
    ensures r.available == m.available && r.maxUsed == m.maxUsed && r.next == m.next && r.prev == m.prev
    ensures FreeTotal(w.blocks) == FreeTotal(v.blocks) - FreeSize(v.blocks[i]) + if used then 0 else SizeOf(v.blocks[i])
    ensures DataSame(v.blocks, m.bytes, r.bytes) && DataSame(w.blocks, m.bytes, r.bytes)
  {
    MarkStep(m, v, top, holes, i, used);
    MarkTotal(v.blocks, i, used);
    MarkShape(v.blocks, i, used);
    MarkData(v.blocks, i, used);
    hide Shape, MarkedAs, FreeTotal, DataSame, Item, InData;
    r := m.(used := m.used[a := used]);
    w := v.(blocks := MarkedAs(v.blocks, i, used));
    ghost var holes' := if used then holes - {a} else holes + {a};
    ItemsOf(r, w, top, holes', i);
    r := Write(r, [a], w, top, holes');
    DataLess(w.blocks, v.blocks, m.bytes, r.bytes);
  }

  /** The free-list links of an item that is in no list are cleared. */
  method Forget(m: Fields, a: int, ghost v: View, ghost top: int, ghost holes: set<int>, ghost i: nat)
    returns (r: Fields)
    requires Shape(m, v, top, holes) && i < |v.blocks| && v.blocks[i].at == a && a !in v.free && a != HEAD
    ensures Shape(r, v, top, holes) && r.available == m.available && r.maxUsed == m.maxUsed
    ensures r.next == m.next && r.used == m.used && DataSame(v.blocks, m.bytes, r.bytes)
  {
    ItemsOf(m, v, top, holes, i);
    ForgetStep(m, v, top, holes, a);
    hide Shape, DataSame, Item;
    r := m.(nextFree := m.nextFree[a := NULL], prevFree := m.prevFree[a := NULL]);
    r := Write(r, [a], v, top, holes);
  }

  lemma NotListed(q: Fields, v: View, top: int, holes: set<int>, a: int)
    requires Shape(q, v, top, holes)
    ensures a in holes ==> a !in v.free
  {
  }

  /** The block of a free-list entry. */
  lemma FreeBlock(q: Fields, v: View, top: int, holes: set<int>, k: nat) returns (i: nat)
    requires Shape(q, v, top, holes) && k < |v.free|
    ensures i < |v.blocks| && v.blocks[i].at == v.free[k] && !v.blocks[i].used
    ensures v.free[k] in q.next && q.next[v.free[k]] == v.blocks[i].end
    ensures v.free[k] in q.nextFree && q.nextFree[v.free[k]] == At(HEAD, v.free, k + 1) && v.free[k] != HEAD
  {
    assert v.free[k] in v.free;
    AtsIn(v.blocks, v.free[k]);
    i :| 0 <= i < |v.blocks| && v.blocks[i].at == v.free[k];
    NextIsEnd(q, v, top, holes, i);
    assert Linked(q.nextFree, q.prevFree, Before(HEAD, v.free, k + 1), At(HEAD, v.free, k + 1));
  }

  /** Where a free block is in the free list. */
  lemma FreePlace(q: Fields, v: View, top: int, holes: set<int>, i: nat) returns (k: nat)
    requires Shape(q, v, top, holes) && i < |v.blocks| && !v.blocks[i].used && v.blocks[i].at !in holes
    ensures k < |v.free| && v.free[k] == v.blocks[i].at
  {
    AtsIn(v.blocks, v.blocks[i].at);
    assert v.blocks[i].at in v.free;
    k :| 0 <= k < |v.free| && v.free[k] == v.blocks[i].at;
  }

  lemma ForgetStep(q: Fields, v: View, top: int, holes: set<int>, a: int)
    requires Shape(q, v, top, holes) && a !in v.free && a != HEAD
    ensures Shape(q.(nextFree := q.nextFree[a := NULL], prevFree := q.prevFree[a := NULL]), v, top, holes)
  {
    Outside(q.nextFree, q.prevFree, HEAD, v.free, a, NULL, NULL);
    hide Ring, Tiling, Flags, Listed;
  }

  // ----- the heap -----

  /** The size a request is rounded up to. */
  function Rounded(size: nat): (n: nat)
    ensures n >= size && n % RT_ALIGN_SIZE == 0 && n >= MINI_ALLOC
    ensures n < size + RT_ALIGN_SIZE || n == MINI_ALLOC
  {
    var n := (size + RT_ALIGN_SIZE - 1) / RT_ALIGN_SIZE * RT_ALIGN_SIZE;
    if n < MINI_ALLOC then MINI_ALLOC else n
  }

  ghost predicate Accounted(q: Fields, bs: Blocks, poolSize: int) {
    q.available == FreeTotal(bs) && q.maxUsed >= poolSize - q.available
  }

  ghost predicate Sound(q: Fields, v: View, poolSize: int) {
    && Shape(q, v, poolSize - ITEM, {})
    && NoTwoFree(v.blocks)
    && Accounted(q, v.blocks, poolSize)
  }

  /** The sizes of the blocks of the free list, in its order. */
  ghost function ListedSize(q: Fields, v: View, k: nat): (n: int)
    requires k < |v.free|
  {
    if v.free[k] in q.next then q.next[v.free[k]] - v.free[k] - ITEM else 0
  }

  /** rt_memheap_alloc serves a request that is smaller than all free bytes and that some free block has room for. */
  ghost predicate HasRoom(q: Fields, v: View, size: nat) {
    size < q.available && exists j :: 0 <= j < |v.free| && ListedSize(q, v, j) >= size
  }

  /** Block `i` is the first on the free list that has room. */
  ghost predicate FirstListed(q: Fields, v: View, size: nat, i: nat) {
    && i < |v.blocks| && !v.blocks[i].used && SizeOf(v.blocks[i]) >= size
    && exists k :: 0 <= k < |v.free| && v.free[k] == v.blocks[i].at &&
                   forall j :: 0 <= j < k ==> ListedSize(q, v, j) < size
  }

  /** What block `i` holds has moved to block `j`, and block `i` is free. */
  ghost function Moved(bs: Blocks, i: nat, j: nat, size: nat): (r: Blocks)
    requires i < |bs| && j < |bs|
  {
    GivenCount(bs, j, size);
    var r := Given(bs, j, size);
    var i' := NewIndex(bs, r, i, j);
    Coalesced(Released(r, i'), i')
  }

  /** Where block `i` is found after block `j` of `bs` has been given out, which made `r` of `bs`. */
  ghost function NewIndex(bs: Blocks, r: Blocks, i: nat, j: nat): (k: nat)
    requires |bs| <= |r| && i < |bs|
    ensures k < |r|
  {
    if i < j then i else i + |r| - |bs|
  }

  lemma GivenCount(bs: Blocks, j: nat, size: nat)
    requires j < |bs|
    ensures |Given(bs, j, size)| >= |bs|
  {
    SplitShape(bs, j, bs[j].at + ITEM + size);
  }

  /** rt_memheap_realloc takes what is missing from a free block behind. */
  ghost predicate Grows(bs: Blocks, i: nat, n: nat) {
    && i + 1 < |bs| && SizeOf(bs[i]) < n && !bs[i + 1].used
    && SizeOf(bs[i + 1]) + SizeOf(bs[i]) > n + MINI_ALLOC
  }

  /** rt_memheap_realloc needs a new block. */
  ghost predicate Relocates(bs: Blocks, i: nat, n: nat) {
    i < |bs| && SizeOf(bs[i]) < n && !Grows(bs, i, n)
  }

  /** The four ways in which rt_memheap_realloc serves a request: grown, moved, cut, or as it was. */
  ghost predicate Resized(q: Fields, v: View, i: nat, j: nat, n: nat, p: int, bs': Blocks)
    requires i < |v.blocks|
  {
    var bs := v.blocks;
    if Relocates(bs, i, n) then
      FirstListed(q, v, n, j) && p == bs[j].at + ITEM && bs' == Moved(bs, i, j, n)
    else
      && p == bs[i].at + ITEM
      && bs' == if Grows(bs, i, n) then Grown(bs, i, n)
                else if n + ITEM + MINI_ALLOC < SizeOf(bs[i]) then Shrunk(bs, i, n) else bs
  }

  class MemHeap {
    const poolSize: int
    var q: Fields
    ghost var v: View

    ghost predicate Valid()
      reads this
    {
      Sound(q, v, poolSize) && |q.bytes| == poolSize
    }

    /** rt_memheap_init: one free block and the closing item. */
    constructor (size: nat)
      requires size / RT_ALIGN_SIZE * RT_ALIGN_SIZE >= 2 * ITEM
      ensures Valid() && poolSize == size / RT_ALIGN_SIZE * RT_ALIGN_SIZE
      ensures v.blocks == [Block(0, poolSize - ITEM, false)] && q.available == poolSize - 2 * ITEM
    {
      var pool := size / RT_ALIGN_SIZE * RT_ALIGN_SIZE;
      var top := pool - ITEM;
      var links := map[0 := top, top := 0];
      q := Fields(map[0 := false, top := true], links, links, map[HEAD := 0, 0 := HEAD], map[HEAD := 0, 0 := HEAD],
                  pool - 2 * ITEM, 2 * ITEM, seq(pool, _ => 0));
      v := View([Block(0, top, false)], [0]);
      poolSize := pool;
      new;
      FirstBlock(q, v, pool);
    }

    /** The search of rt_memheap_alloc: the first free block in list order that is large enough. */
    method Find(size: nat) returns (ptr: int, freeSize: int, ghost k: nat)
      requires Valid()
      ensures k <= |v.free| && (forall j :: 0 <= j < k ==> ListedSize(q, v, j) < size)
      ensures freeSize >= size && size > 0 ==> k < |v.free| && ptr == v.free[k] && freeSize == ListedSize(q, v, k)
      ensures freeSize < size ==> k == |v.free|
      ensures size > 0 ==> (freeSize >= size <==> exists j :: 0 <= j < |v.free| && ListedSize(q, v, j) >= size)
      ensures freeSize >= size && size > 0 ==> ptr in v.free && ptr in q.next && freeSize == q.next[ptr] - ptr - ITEM
    {
      hide Tiling, Flags, Listed, NoTwoFree, FreeTotal, Distinct;
      k, freeSize := 0, 0;
      assert Linked(q.nextFree, q.prevFree, Before(HEAD, v.free, 0), At(HEAD, v.free, 0));
      ptr := q.nextFree[HEAD];
      while ptr != HEAD && freeSize < size
        invariant k <= |v.free| && ptr == At(HEAD, v.free, k)
        invariant forall j :: 0 <= j < k ==> ListedSize(q, v, j) < size
        invariant freeSize >= size && size > 0 ==> k < |v.free| && freeSize == ListedSize(q, v, k)
        decreases |v.free| - k, if freeSize < size then 1 else 0
      {
        ghost var i := FreeBlock(q, v, poolSize - ITEM, {}, k);
        freeSize := q.next[ptr] - ptr - ITEM;
        if freeSize < size {
          ptr := q.nextFree[ptr];
          k := k + 1;
        }
      }
      if ptr == HEAD && k < |v.free| { ghost var i := FreeBlock(q, v, poolSize - ITEM, {}, k); }
    }

    /** One branch of rt_memheap_alloc: the block is larger by at least a block of its own. */
    method TakePart(m0: Fields, ptr: int, size: nat, ghost i: nat, ghost k: nat) returns (m: Fields, ghost w: View)
      requires Valid() && m0 == q && i < |v.blocks| && k < |v.free| && v.free[k] == v.blocks[i].at == ptr
      requires !v.blocks[i].used && size % RT_ALIGN_SIZE == 0 && SizeOf(v.blocks[i]) >= size + ITEM + MINI_ALLOC
      ensures Shape(m, w, poolSize - ITEM, {ptr}) && w.blocks == SplitAt(v.blocks, i, ptr + ITEM + size)
      ensures w.free == [ptr + ITEM + size] + Without(v.free, ptr) && ptr !in w.free
      ensures m.available == m0.available - size - ITEM && Peak(m0, m, poolSize)
      ensures FreeTotal(w.blocks) == FreeTotal(v.blocks) - ITEM && DataSame(w.blocks, m0.bytes, m.bytes)
    {
      hide Shape, FreeTotal, NoTwoFree, SplitAt, DataSame;
      m, w := CutOff(m0, ptr, ptr + size + ITEM, i, k);
      ghost var linked := m;
      m := m.(available := m.available - size - ITEM);
      if poolSize - m.available > m.maxUsed { m := m.(maxUsed := poolSize - m.available); }
      SameShape(linked, m, w, poolSize - ITEM, {ptr});
    }

    /** The links of that branch: the rest takes the place of the block on the free list, in front. */
    method CutOff(m0: Fields, ptr: int, ptr2: int, ghost i: nat, ghost k: nat) returns (m: Fields, ghost w: View)
      requires Valid() && m0 == q && i < |v.blocks| && k < |v.free| && v.free[k] == v.blocks[i].at == ptr
      requires !v.blocks[i].used && (ptr2 - ptr) % RT_ALIGN_SIZE == 0 && ptr + ITEM <= ptr2
               && ptr2 + ITEM <= v.blocks[i].end
      ensures Shape(m, w, poolSize - ITEM, {ptr}) && w.blocks == SplitAt(v.blocks, i, ptr2)
      ensures w.free == [ptr2] + Without(v.free, ptr) && ptr !in w.free
      ensures m.available == m0.available && m.maxUsed == m0.maxUsed
      ensures FreeTotal(w.blocks) == FreeTotal(v.blocks) - ITEM && DataSame(w.blocks, m0.bytes, m.bytes)
    {
      hide Shape, FreeTotal, NoTwoFree, SplitAt, DataSame;
      ghost var top := poolSize - ITEM;
      NextIsEnd(m0, v, top, {}, i);
      BlockAligned(m0, v, top, {}, i);
      m, w := Split(m0, ptr, ptr2, v, top, {}, i);
      SplitShape(v.blocks, i, ptr2);
      assert {} + {ptr2} == {ptr2};
      ghost var b1 := m.bytes;
      m, w := Unlist(m, ptr, w, top, {ptr2}, k);
      ghost var b2 := m.bytes;
      m := Forget(m, ptr, w, top, {ptr2} + {ptr}, i);
      ghost var b3 := m.bytes;
      m, w := List(m, ptr2, w, top, {ptr2} + {ptr}, i + 1);
      DataTrans(w.blocks, m0.bytes, b1, b2);
      DataTrans(w.blocks, m0.bytes, b2, b3);
      DataTrans(w.blocks, m0.bytes, b3, m.bytes);
      assert ({ptr2} + {ptr}) - {ptr2} == {ptr};
      NotListed(m, w, top, {ptr}, ptr);
    }

    /** The other branch: the whole block. */
    method TakeWhole(m0: Fields, ptr: int, ghost i: nat, ghost k: nat) returns (m: Fields, ghost w: View)
      requires Valid() && m0 == q && i < |v.blocks| && k < |v.free| && v.free[k] == v.blocks[i].at == ptr
      requires !v.blocks[i].used
      ensures Shape(m, w, poolSize - ITEM, {ptr}) && w.blocks == v.blocks
      ensures w.free == Without(v.free, ptr) && ptr !in w.free
      ensures m.available == m0.available - SizeOf(v.blocks[i]) && Peak(m0, m, poolSize)
      ensures DataSame(v.blocks, m0.bytes, m.bytes)
    {
      hide Shape, FreeTotal, NoTwoFree, DataSame;
      ghost var top := poolSize - ITEM;
      NextIsEnd(m0, v, top, {}, i);
      m := m0.(available := m0.available - (m0.next[ptr] - ptr - ITEM));
      if poolSize - m.available > m.maxUsed { m := m.(maxUsed := poolSize - m.available); }
      SameShape(m0, m, v, top, {});
      m, w := Unlist(m, ptr, v, top, {}, k);
      assert {} + {ptr} == {ptr};
      ghost var b := m.bytes;
      m := Forget(m, ptr, w, top, {ptr}, i);
      DataTrans(v.blocks, m0.bytes, b, m.bytes);
    }

    /**
     rt_memheap_alloc.

     The first block of the free list that has room is given out.  Nothing is given out if no free block
     has room, or if the request is as large as all free blocks together.
     */
    method Alloc(size: nat) returns (p: Option<int>, ghost i: nat)
      requires Valid()
      modifies this`q, this`v
      ensures Valid()
      ensures p.Some? <==> HasRoom(old(q), old(v), Rounded(size))
      ensures p.None? ==> q == old(q) && v == old(v)
      ensures p.Some? ==>
                && FirstListed(old(q), old(v), Rounded(size), i) && p.value == old(v.blocks)[i].at + ITEM
                && v.blocks == Given(old(v.blocks), i, Rounded(size))
      ensures p.Some? <==> && Rounded(size) < old(q.available)
                           && exists b :: b in old(v.blocks) && !b.used && b.at + ITEM + Rounded(size) <= b.end
      ensures p.Some? ==>
                var bs, b, n := old(v.blocks), old(v.blocks)[i], Rounded(size);
                if p.value + n + ITEM + MINI_ALLOC <= b.end then
                  && v.blocks ==
                     bs[..i] + [Block(b.at, p.value + n, true), Block(p.value + n, b.end, false)] + bs[i + 1..]
                  && v.free == [p.value + n] + Without(old(v.free), b.at)
                  && q.available == old(q.available) - n - ITEM
                else
                  && v.blocks == bs[..i] + [Block(b.at, b.end, true)] + bs[i + 1..]
                  && v.free == Without(old(v.free), b.at) && q.available == old(q.available) - (b.end - p.value)
      ensures q.maxUsed == if poolSize - q.available > old(q.maxUsed) then poolSize - q.available else old(q.maxUsed)
      ensures p.Some? ==> DataSame(v.blocks, old(q.bytes), q.bytes)
    {
      hide Shape, FreeTotal, NoTwoFree, SplitAt, MarkedAs, ListedSize, Rounded, DataSame, InData;
      i, p := 0, None;
      var n := Rounded(size);
      RoundedIs(size);
      HasRoomIs(q, v, poolSize, n);
      if n >= q.available { return; }
      ghost var k;
      var ptr, freeSize;
      ptr, freeSize, k := Find(n);
      if freeSize < n { return; }
      i := FreeBlock(q, v, poolSize - ITEM, {}, k);
      ListedSizeIs(q, v, k);
      GivenIs(v.blocks, i, n);
      ghost var w;
      var m;
      if freeSize >= n + ITEM + MINI_ALLOC {
        m, w := TakePart(q, ptr, n, i, k);
        SplitShape(v.blocks, i, ptr + ITEM + n);
      } else {
        m, w := TakeWhole(q, ptr, i, k);
      }
      ghost var b, bs := m.bytes, w.blocks;
      m, w := Mark(m, ptr, true, w, poolSize - ITEM, {ptr}, i);
      MarkData(bs, i, true);
      DataLess(bs, w.blocks, q.bytes, b);
      DataTrans(w.blocks, q.bytes, b, m.bytes);
      SameLength(w.blocks, q.bytes, m.bytes);
      assert {ptr} - {ptr} == {};
      GivenSparse(v.blocks, i, n);
      q, v := m, w;
      p := Some(ptr + ITEM);
    }

    /** rt_memheap_free: the block is joined with free neighbours; only a block of its own goes to the free list. */
    method Free(ptr: Option<int>, ghost i: nat)
      requires Valid()
      requires ptr.Some? ==> i < |v.blocks| && v.blocks[i].used && ptr.value == v.blocks[i].at + ITEM
      modifies this`q, this`v
      ensures Valid()
      ensures ptr.None? ==> q == old(q) && v == old(v)
      ensures ptr.Some? ==> v.blocks == Coalesced(Released(old(v.blocks), i), i) && q.maxUsed == old(q.maxUsed)
      ensures ptr.Some? ==>
                var bs := old(v.blocks);
                var left, right := i > 0 && !bs[i - 1].used, i + 1 < |bs| && !bs[i + 1].used;
                var f, l := if left then i - 1 else i, if right then i + 1 else i;
                var listed := if right then Without(old(v.free), bs[i + 1].at) else old(v.free);
                && v.blocks == bs[..f] + [Block(bs[f].at, bs[l].end, false)] + bs[l + 1..]
                && v.free == (if left then listed else [bs[i].at] + listed)
                && q.available == old(q.available) + (bs[i].end - ptr.value) + (if left then ITEM else 0)
                                  + (if right then ITEM else 0)
      ensures DataSame(old(v.blocks), old(q.bytes), q.bytes)
    {
      hide Shape, FreeTotal, NoTwoFree, MarkedAs, JoinedWith, Coalesced, Released, DataSame, InData;
      DataItself(v.blocks, q.bytes);
      if ptr.None? { return; }
      ghost var top := poolSize - ITEM;
      var at := ptr.value - ITEM;
      NextIsEnd(q, v, top, {}, i);
      UsedNotListed(q, v, top, {}, i);
      ghost var w;
      var m;
      m, w := Mark(q, at, false, v, top, {}, i);
      assert {} + {at} == {at};
      MarkShape(v.blocks, i, false);
      ReleasedShape(v.blocks, i);
      MarkData(v.blocks, i, false);
      ghost var released, b0 := w.blocks, m.bytes;
      ghost var linked := m;
      m := m.(available := m.available + (m.next[at] - at - ITEM));
      SameShape(linked, m, w, top, {at});
      m, w := Absorb(m, at, w, i);
      DataLess(released, v.blocks, b0, m.bytes);
      DataTrans(v.blocks, q.bytes, b0, m.bytes);
      SameLength(v.blocks, q.bytes, m.bytes);
      FreedIs(v.blocks, i);
      ReleasedSparse(v.blocks, i);
      q, v := m, w;
    }

    /** The block that is being freed is joined with free neighbours, and listed if it then stands on its own. */
    method Absorb(m0: Fields, at0: int, ghost v0: View, ghost i: nat) returns (m: Fields, ghost w: View)
      requires Shape(m0, v0, poolSize - ITEM, {at0}) && i < |v0.blocks| && v0.blocks[i].at == at0 && !v0.blocks[i].used
      requires m0.available == FreeTotal(v0.blocks)
      ensures Shape(m, w, poolSize - ITEM, {}) && m.available == FreeTotal(w.blocks) && m.maxUsed == m0.maxUsed
      ensures w.blocks == Coalesced(v0.blocks, i)
      ensures var bs := v0.blocks;
              var left, right := i > 0 && !bs[i - 1].used, i + 1 < |bs| && !bs[i + 1].used;
              var listed := if right then Without(v0.free, bs[i + 1].at) else v0.free;
              && w.free == (if left then listed else [at0] + listed)
              && m.available == m0.available + (if left then ITEM else 0) + (if right then ITEM else 0)
      ensures DataSame(v0.blocks, m0.bytes, m.bytes)
    {
      hide Shape, FreeTotal, JoinedWith, Coalesced, DataSame, InData, Without;
      ghost var top, bs := poolSize - ITEM, v0.blocks;
      var at, insertHeader;
      ghost var h, holes;
      m, w, at, insertHeader, h, holes := JoinLeft(m0, at0, v0, i);
      ghost var left, b1 := w.blocks, m.bytes;
      assert |left| - h == |bs| - i && (i + 1 < |bs| ==> left[h + 1] == bs[i + 1]) by {
        assert |left[h + 1..]| == |bs[i + 1..]|;
        if i + 1 < |bs| { assert left[h + 1..][0] == bs[i + 1..][0]; }
      }
      m, w := JoinRight(m, at, w, h, holes);
      ghost var right, b2 := w.blocks, m.bytes;
      DataItself(right, b2);
      if insertHeader {
        m, w := List(m, at, w, top, holes, h);
        assert holes - {at} == {};
      }
      DataItself(bs, m0.bytes);
      DataThrough(bs, bs, left, right, m0.bytes, m0.bytes, b1, b2, m.bytes);
      BothJoined(bs, i);
    }

    /** The block that is being freed goes into a free block in front of it. */
    method JoinLeft(m0: Fields, at0: int, ghost v0: View, ghost i: nat)
      returns (m: Fields, ghost w: View, at: int, insertHeader: bool, ghost h: nat, ghost holes: set<int>)
      requires Shape(m0, v0, poolSize - ITEM, {at0}) && i < |v0.blocks| && v0.blocks[i].at == at0 && !v0.blocks[i].used
      requires m0.available == FreeTotal(v0.blocks)
      ensures Shape(m, w, poolSize - ITEM, holes) && m.available == FreeTotal(w.blocks)
      ensures m.maxUsed == m0.maxUsed && w.free == v0.free
      ensures m.available == m0.available + if i > 0 && !v0.blocks[i - 1].used then ITEM else 0
      ensures w.blocks == LeftJoined(v0.blocks, i) && h == LeftIndex(v0.blocks, i) && h < |w.blocks|
      ensures w.blocks[h].at == at && !w.blocks[h].used && insertHeader == (h == i)
      ensures w.blocks[h + 1..] == v0.blocks[i + 1..]
      ensures holes == if insertHeader then {at} else {}
      ensures DataSame(v0.blocks, m0.bytes, m.bytes) && forall k :: InData(v0.blocks, k) ==> InData(w.blocks, k)
    {
      hide Shape, FreeTotal, JoinedWith, DataSame, InData;
      DataItself(v0.blocks, m0.bytes);
      ghost var top := poolSize - ITEM;
      NextIsEnd(m0, v0, top, {at0}, i);
      m, w, at, insertHeader, h, holes := m0, v0, at0, true, i, {at0};
      if i > 0 { NextIsEnd(m0, v0, top, {at0}, i - 1); }
      if !m.used[m.prev[at]] {
        m := m.(available := m.available + ITEM);
        SameShape(m0, m, v0, top, {at0});
        NotListed(m, v0, top, {at0}, at0);
        at := m.prev[at];
        JoinShape(v0.blocks, i - 1);
        JoinData(v0.blocks, i - 1);
        m, w := Join(m, at, v0, top, {at0}, i - 1);
        assert {at0} - {at0} == {};
        insertHeader, h, holes := false, i - 1, {};
      }
    }

    /** The block that is being freed takes over a free block behind it. */
    method JoinRight(m0: Fields, at: int, ghost v0: View, ghost h: nat, ghost holes: set<int>)
      returns (m: Fields, ghost w: View)
      requires Shape(m0, v0, poolSize - ITEM, holes) && h < |v0.blocks| && v0.blocks[h].at == at && !v0.blocks[h].used
      requires m0.available == FreeTotal(v0.blocks) && holes <= {at}
      ensures Shape(m, w, poolSize - ITEM, holes) && m.available == FreeTotal(w.blocks)
      ensures m.maxUsed == m0.maxUsed
      ensures if h + 1 < |v0.blocks| && !v0.blocks[h + 1].used
              then w.free == Without(v0.free, v0.blocks[h + 1].at) && m.available == m0.available + ITEM
              else w.free == v0.free && m.available == m0.available
      ensures w.blocks == RightJoined(v0.blocks, h) && h < |w.blocks| && w.blocks[h].at == at && !w.blocks[h].used
      ensures DataSame(v0.blocks, m0.bytes, m.bytes) && forall k :: InData(v0.blocks, k) ==> InData(w.blocks, k)
    {
      hide Shape, FreeTotal, JoinedWith, DataSame, InData;
      DataItself(v0.blocks, m0.bytes);
      ghost var top := poolSize - ITEM;
      NextIsEnd(m0, v0, top, holes, h);
      m, w := m0, v0;
      if h + 1 < |v0.blocks| { NextIsEnd(m0, v0, top, holes, h + 1); }
      if !m.used[m.next[at]] {
        var next := m.next[at];
        ghost var k := FreePlace(m0, v0, top, holes, h + 1);
        m := m.(available := m.available + ITEM);
        SameShape(m0, m, v0, top, holes);
        m, w := Unlist(m, next, v0, top, holes, k);
        ghost var b := m.bytes;
        JoinShape(v0.blocks, h);
        JoinData(v0.blocks, h);
        m, w := Join(m, at, w, top, holes + {next}, h);
        DataTrans(v0.blocks, m0.bytes, b, m.bytes);
        assert holes + {next} - {next} == holes;
      }
    }

    /** The branch of rt_memheap_realloc that takes what it needs from a free block behind. */
    method Grow(at: int, size: nat, ghost i: nat)
      requires Valid() && i + 1 < |v.blocks| && v.blocks[i].used && v.blocks[i].at == at && !v.blocks[i + 1].used
      requires size % RT_ALIGN_SIZE == 0 && SizeOf(v.blocks[i]) < size
      requires SizeOf(v.blocks[i]) + SizeOf(v.blocks[i + 1]) > size + MINI_ALLOC
      modifies this`q, this`v
      ensures Valid() && v.blocks == Grown(old(v.blocks), i, size) && Peak(old(q), q, poolSize)
      ensures v.free == [at + ITEM + size] + Without(old(v.free), old(v.blocks)[i + 1].at)
      ensures q.available == old(q.available) - (size - SizeOf(old(v.blocks)[i]))
      ensures BothSame(old(v.blocks), v.blocks, old(q.bytes), q.bytes)
    {
      hide Shape, FreeTotal, NoTwoFree, JoinedWith, SplitAt, Peak, DataSame, BothSame;
      ghost var top := poolSize - ITEM;
      NextIsEnd(q, v, top, {}, i);
      NextIsEnd(q, v, top, {}, i + 1);
      BlockAligned(q, v, top, {}, i);
      var next := q.next[at];
      var oldSize, cut := next - at - ITEM, at + ITEM + size;
      var m := q.(available := q.available - (size - oldSize));
      if poolSize - m.available > m.maxUsed { m := m.(maxUsed := poolSize - m.available); }
      SameShape(q, m, v, top, {});
      ghost var k := FreePlace(q, v, top, {}, i + 1);
      ghost var w;
      m, w := Unlist(m, next, v, top, {}, k);
      ghost var b1 := m.bytes;
      m, w := Join(m, at, w, top, {} + {next}, i);
      ghost var b2 := m.bytes;
      assert {} + {next} - {next} == {};
      JoinShape(v.blocks, i);
      m, w := Split(m, at, cut, w, top, {}, i);
      ghost var b3 := m.bytes;
      SplitShape(JoinedWith(v.blocks, i), i, cut);
      m, w := List(m, cut, w, top, {} + {cut}, i + 1);
      assert {} + {cut} - {cut} == {};
      DataTrans(v.blocks, q.bytes, b1, b2);
      DataTrans(w.blocks, b2, b3, m.bytes);
      BothParts(v.blocks, w.blocks, q.bytes, b2, m.bytes);
      GrownSparse(v.blocks, i, size);
      PeakKept(q, m, poolSize);
      q, v := m, w;
    }

    /** What was cut off takes over a free block behind it, whose bytes are no longer counted. */
    method JoinRest(m0: Fields, cut: int, ghost v0: View, ghost h: nat) returns (m: Fields, ghost w: View)
      requires Shape(m0, v0, poolSize - ITEM, {cut}) && h < |v0.blocks| && v0.blocks[h].at == cut && !v0.blocks[h].used
      ensures Shape(m, w, poolSize - ITEM, {cut}) && m.maxUsed == m0.maxUsed
      ensures if h + 1 < |v0.blocks| && !v0.blocks[h + 1].used
              then && w.free == Without(v0.free, v0.blocks[h + 1].at)
                   && m.available == m0.available - SizeOf(v0.blocks[h + 1])
              else w.free == v0.free && m.available == m0.available
      ensures w.blocks == RightJoined(v0.blocks, h) && h < |w.blocks| && w.blocks[h].at == cut && !w.blocks[h].used
      ensures m.available - m0.available ==
              FreeTotal(w.blocks) - FreeTotal(v0.blocks) + SizeOf(v0.blocks[h]) - SizeOf(w.blocks[h])
      ensures FreeTotal(w.blocks) >= FreeTotal(v0.blocks)
      ensures DataSame(v0.blocks, m0.bytes, m.bytes) && forall k :: InData(v0.blocks, k) ==> InData(w.blocks, k)
    {
      hide Shape, FreeTotal, JoinedWith, DataSame, InData;
      DataItself(v0.blocks, m0.bytes);
      ghost var top := poolSize - ITEM;
      NextIsEnd(m0, v0, top, {cut}, h);
      m, w := m0, v0;
      if h + 1 < |v0.blocks| { NextIsEnd(m0, v0, top, {cut}, h + 1); }
      if !m.used[m.next[cut]] {
        var next := m.next[cut];
        ghost var k := FreePlace(m0, v0, top, {cut}, h + 1);
        m := m.(available := m.available - (m.next[next] - next - ITEM));
        SameShape(m0, m, v0, top, {cut});
        m, w := Unlist(m, next, v0, top, {cut}, k);
        ghost var b := m.bytes;
        m, w := Join(m, cut, w, top, {cut} + {next}, h);
        DataTrans(v0.blocks, m0.bytes, b, m.bytes);
        assert {cut} + {next} - {next} == {cut};
        JoinShape(v0.blocks, h);
        JoinData(v0.blocks, h);
      }
    }

    /** The branch that cuts the rest off and joins it with a free block behind. */
    method Shrink(at: int, size: nat, ghost i: nat)
      requires Valid() && i < |v.blocks| && v.blocks[i].used && v.blocks[i].at == at
      requires size % RT_ALIGN_SIZE == 0 && size + ITEM + MINI_ALLOC < SizeOf(v.blocks[i])
      modifies this`q, this`v
      ensures Valid() && v.blocks == Shrunk(old(v.blocks), i, size) && q.maxUsed == old(q.maxUsed)
      ensures var bs := old(v.blocks);
              && v.free == [at + ITEM + size] + (if i + 1 < |bs| && !bs[i + 1].used
                                                 then Without(old(v.free), bs[i + 1].at) else old(v.free))
              && q.available == old(q.available) + SizeOf(bs[i]) - size
                                - (if i + 1 < |bs| && !bs[i + 1].used then 0 else ITEM)
      ensures DataSame(SplitAt(old(v.blocks), i, at + ITEM + size), old(q.bytes), q.bytes)
    {
      hide Shape, FreeTotal, NoTwoFree, JoinedWith, SplitAt, DataSame, InData, RightJoined, Without;
      ghost var top := poolSize - ITEM;
      NextIsEnd(q, v, top, {}, i);
      BlockAligned(q, v, top, {}, i);
      var cut := at + size + ITEM;
      ghost var w;
      var m;
      m, w := Split(q, at, cut, v, top, {}, i);
      assert {} + {cut} == {cut};
      SplitShape(v.blocks, i, cut);
      ghost var halves, b1 := w.blocks, m.bytes;
      m, w := JoinRest(m, cut, w, i + 1);
      ghost var b2 := m.bytes;
      m, w := List(m, cut, w, top, {cut}, i + 1);
      DataItself(halves, q.bytes);
      DataThrough(halves, halves, halves, w.blocks, q.bytes, q.bytes, b1, b2, m.bytes);
      assert {cut} - {cut} == {};
      NextIsEnd(m, w, top, {}, i + 1);
      ghost var linked := m;
      m := m.(available := m.available + (m.next[cut] - cut - ITEM));
      SameShape(linked, m, w, top, {});
      ShrunkSparse(v.blocks, i, size);
      ShrunkIs(v.blocks, i, size);
      q, v := m, w;
    }

    /** rt_memcpy between two blocks. */
    method CopyBytes(dst: int, src: int, n: nat)
      requires 0 <= dst && dst + n <= |q.bytes| && 0 <= src && src + n <= |q.bytes|
      requires dst + n <= src || src + n <= dst
      modifies this`q
      ensures q == old(q).(bytes := Copied(old(q.bytes), dst, src, n))
    {
      ghost var olds := q.bytes;
      CopyNone(olds, dst, src);
      for k := 0 to n
        invariant q == old(q).(bytes := Copied(olds, dst, src, k))
      {
        CopyStep(olds, dst, src, k);
        q := q.(bytes := q.bytes[dst + k := q.bytes[src + k]]);
      }
    }

    /** A new block `k`, with the bytes of block `i` copied to it; block `i` itself is now number `i'`. */
    method Obtain(ptr: int, size: nat, ghost i: nat)
      returns (p: Option<int>, ghost i': nat, ghost k: nat, ghost b1: seq<int>)
      requires Valid() && i < |v.blocks| && v.blocks[i].used && ptr == v.blocks[i].at + ITEM
      requires SizeOf(v.blocks[i]) < size && Rounded(size) == size
      modifies this
      ensures Valid() && (p.Some? <==> HasRoom(old(q), old(v), size))
      ensures p.None? ==> q == old(q) && v == old(v)
      ensures p.Some? ==> FirstListed(old(q), old(v), size, k) && v.blocks == Given(old(v.blocks), k, size)
      ensures p.Some? ==> |v.blocks| >= |old(v.blocks)| && i' == NewIndex(old(v.blocks), v.blocks, i, k)
      ensures p.Some? ==> k < |v.blocks| && i' != k && v.blocks[i'] == old(v.blocks)[i] && v.blocks[i'] != v.blocks[k]
      ensures p.Some? ==>
                && p.value == old(v.blocks)[k].at + ITEM == v.blocks[k].at + ITEM
                && v.blocks[k].used && SizeOf(v.blocks[k]) >= size
      ensures p.Some? ==>
                && ptr >= 0 && p.value >= 0 && ptr + SizeOf(old(v.blocks)[i]) <= |b1|
                && |b1| == |old(q.bytes)| && p.value + SizeOf(old(v.blocks)[i]) <= |b1|
                && DataSame(v.blocks, old(q.bytes), b1)
                && q.bytes == Copied(b1, p.value, ptr, SizeOf(old(v.blocks)[i]))
      ensures p.Some? ==> forall j :: 0 <= j < |old(v.blocks)| && j != i && old(v.blocks)[j].used ==>
                && old(v.blocks)[j] in v.blocks && old(v.blocks)[j] != v.blocks[i'] && old(v.blocks)[j].at >= 0
                && SameBytes(q.bytes, old(q.bytes), old(v.blocks)[j].at + ITEM, old(v.blocks)[j].at + ITEM,
                             SizeOf(old(v.blocks)[j]))
    {
      hide Shape, FreeTotal, NoTwoFree, Given, Coalesced, Released, Rounded, HasRoom, SameBytes, DataSame, Untouched,
           Copied, Different, OthersUntouched, Accounted, Without;
      ghost var bs, top, b0 := v.blocks, poolSize - ITEM, q.bytes;
      NextIsEnd(q, v, top, {}, i);
      var oldSize := q.next[ptr - ITEM] - ptr;
      DifferentBlocks(q, v, top, {});
      p, k := Alloc(size);
      i', b1 := i, q.bytes;
      if p.None? { return; }
      i' := GivenKeeps(bs, k, size, i);
      GivenBlock(bs, k, size);
      NextIsEnd(q, v, top, {}, i');
      NextIsEnd(q, v, top, {}, k);
      BlocksApart(q, v, top, {}, i', k);
      Carry(p.value, ptr, oldSize);
      OthersMoved(bs, k, size, i, i', q, v, top, b0, b1, q.bytes, oldSize);
    }

    /** The last resort of rt_memheap_realloc: a new block, a copy, and the old block freed. */
    method Move(ptr: int, size: nat, ghost i: nat) returns (p: Option<int>, ghost b: Block, ghost k: nat)
      requires Valid() && i < |v.blocks| && v.blocks[i].used && ptr == v.blocks[i].at + ITEM
      requires SizeOf(v.blocks[i]) < size && Rounded(size) == size
      modifies this
      ensures Valid() && (p.Some? <==> HasRoom(old(q), old(v), size))
      ensures p.None? ==> q == old(q) && v == old(v)
      ensures p.Some? ==> FirstListed(old(q), old(v), size, k) && p.value == old(v.blocks)[k].at + ITEM
      ensures p.Some? ==> v.blocks == Moved(old(v.blocks), i, k, size)
      ensures p.Some? ==>
                && b in v.blocks && b.used && p.value == b.at + ITEM && SizeOf(b) >= size
                && SameBytes(q.bytes, old(q.bytes), p.value, ptr, SizeOf(old(v.blocks)[i]))
      ensures OthersUntouched(old(v.blocks), v.blocks, q.bytes, old(q.bytes), i)
    {
      hide Shape, FreeTotal, NoTwoFree, Given, Coalesced, Released, Rounded, HasRoom, SameBytes, DataSame, Untouched,
           Copied, Different, OthersUntouched, Accounted, FirstListed, Without;
      ghost var bs, top, b0 := v.blocks, poolSize - ITEM, q.bytes;
      b := bs[i];
      ItselfUntouched(q, v, top, q.bytes, i);
      NextIsEnd(q, v, top, {}, i);
      ghost var i', b1;
      p, i', k, b1 := Obtain(ptr, size, i);
      if p.None? { return; }
      ghost var given, b2 := v.blocks, q.bytes;
      b := given[k];
      NextIsEnd(q, v, top, {}, i');
      NextIsEnd(q, v, top, {}, k);
      Free(Some(ptr), i');
      FreeKeeps(given, i');
      CarriedOver(given, top, i', k, SizeOf(bs[i]), b0, b1, b2, q.bytes);
      OthersFreed(bs, given, v.blocks, top, i, i', b0, b2, q.bytes);
    }

    /** The copy, which is not noticed by the links. */
    method Carry(dst: int, src: int, n: nat)
      requires Valid() && 0 <= dst && dst + n <= |q.bytes| && 0 <= src && src + n <= |q.bytes|
      requires dst + n <= src || src + n <= dst
      modifies this`q
      ensures Valid() && q == old(q).(bytes := Copied(old(q.bytes), dst, src, n)) && |q.bytes| == |old(q.bytes)|
    {
      hide Shape, FreeTotal, NoTwoFree;
      CopiedIs(q.bytes, dst, src, n, 0, 0);
      CopyBytes(dst, src, n);
      SameShape(old(q), q, v, poolSize - ITEM, {});
    }

    /** A block that is there already gets another size, which is grown, moved, cut, or left as it was. */
    method Resize(ptr: int, n: nat, ghost i: nat) returns (p: Option<int>, ghost b: Block, ghost k: nat)
      requires Valid() && i < |v.blocks| && v.blocks[i].used && ptr == v.blocks[i].at + ITEM && Rounded(n) == n
      modifies this
      ensures Valid() && (p.None? <==> Relocates(old(v.blocks), i, n) && !HasRoom(old(q), old(v), n))
      ensures p.None? ==> q == old(q) && v == old(v)
      ensures p.Some? ==> Resized(old(q), old(v), i, k, n, p.value, v.blocks)
      ensures p.Some? ==> b in v.blocks && b.used && p.value == b.at + ITEM && SizeOf(b) >= n
      ensures p.Some? ==>
                var m := SizeOf(old(v.blocks)[i]);
                SameBytes(q.bytes, old(q.bytes), p.value, ptr, if n < m then n else m)
      ensures OthersUntouched(old(v.blocks), v.blocks, q.bytes, old(q.bytes), i)
    {
      hide Shape, FreeTotal, NoTwoFree, Given, Coalesced, Released, Rounded, Grown, Shrunk, SameBytes, HasRoom, Moved,
           DataSame, BothSame, Untouched, OthersUntouched, Without;
      ghost var bs, top := v.blocks, poolSize - ITEM;
      DifferentBlocks(q, v, top, {});
      RoundedIs(n);
      b, k := Block(0, 0, false), 0;
      ItselfUntouched(q, v, top, q.bytes, i);
      NextIsEnd(q, v, top, {}, i);
      WholePrefix(q.bytes, bs[i], n);
      var at := ptr - ITEM;
      var oldSize := q.next[at] - at - ITEM;
      if n > oldSize {
        var next := q.next[at];
        if i + 1 < |bs| { NextIsEnd(q, v, top, {}, i + 1); }
        if !q.used[next] {
          var nextSize := q.next[next] - next - ITEM;
          if nextSize + oldSize > n + MINI_ALLOC {
            GrownKeeps(bs, i, n);
            ghost var q0, v0 := q, v;
            Grow(at, n, i);
            AllGrown(q0, v0, top, v.blocks, q.bytes, i, n);
            p, b := Some(ptr), v.blocks[i];
            return;
          }
        }
        p, b, k := Move(ptr, n, i);
        return;
      }
      p, b := Some(ptr), bs[i];
      if n + ITEM + MINI_ALLOC >= oldSize { return; }
      ShrunkKeeps(bs, i, n);
      ghost var q0, v0 := q, v;
      Shrink(at, n, i);
      AllShrunk(q0, v0, top, v.blocks, q.bytes, i, n);
      b := v.blocks[i];
    }

    /** The branch of rt_memheap_realloc for no block at all. */
    method Fresh(n: nat) returns (p: Option<int>, ghost b: Block, ghost k: nat)
      requires Valid() && Rounded(n) == n
      modifies this
      ensures Valid() && (p.Some? <==> HasRoom(old(q), old(v), n))
      ensures p.None? ==> q == old(q) && v == old(v)
      ensures p.Some? ==>
                && FirstListed(old(q), old(v), n, k) && p.value == old(v.blocks)[k].at + ITEM
                && v.blocks == Given(old(v.blocks), k, n)
      ensures p.Some? ==> b in v.blocks && b.used && p.value == b.at + ITEM && SizeOf(b) >= n
      ensures OthersUntouched(old(v.blocks), v.blocks, q.bytes, old(q.bytes), -1)
    {
      hide Shape, FreeTotal, NoTwoFree, Given, Rounded, HasRoom, DataSame, Untouched, OthersUntouched, Without;
      ghost var bs, top, b0 := v.blocks, poolSize - ITEM, q.bytes;
      ItselfUntouched(q, v, top, q.bytes, -1);
      b := Block(0, 0, false);
      p, k := Alloc(n);
      if p.Some? {
        AllocKeeps(bs, k, n);
        AllGiven(bs, q, v, top, b0);
        b := v.blocks[k];
      }
    }

    /**
     rt_memheap_realloc.

     The block that comes back is large enough and begins with the old block's bytes; nothing happens if
     there is no room.  Other blocks are left alone.
     */
    method Realloc(ptr: Option<int>, newSize: nat, ghost i: nat) returns (p: Option<int>, ghost b: Block, ghost k: nat)
      requires Valid()
      requires ptr.Some? ==> i < |v.blocks| && v.blocks[i].used && ptr.value == v.blocks[i].at + ITEM
      modifies this
      ensures Valid()
      ensures var n := Rounded(newSize);
              p.None? <==>
                newSize == 0 || ((ptr.None? || Relocates(old(v.blocks), i, n)) && !HasRoom(old(q), old(v), n))
      ensures newSize == 0 ==>
                v.blocks == if ptr.Some? then Coalesced(Released(old(v.blocks), i), i) else old(v.blocks)
      ensures newSize > 0 && p.None? ==> q == old(q) && v == old(v)
      ensures p.Some? && ptr.None? ==>
                && FirstListed(old(q), old(v), Rounded(newSize), k) && p.value == old(v.blocks)[k].at + ITEM
                && v.blocks == Given(old(v.blocks), k, Rounded(newSize))
      ensures p.Some? && ptr.Some? ==> Resized(old(q), old(v), i, k, Rounded(newSize), p.value, v.blocks)
      ensures p.Some? && ptr.Some? ==> ByOffsets(old(v.blocks), i, k, Rounded(newSize), p.value, v.blocks)
      ensures p.Some? ==> b in v.blocks && b.used && p.value == b.at + ITEM && SizeOf(b) >= newSize
      ensures p.Some? && ptr.Some? ==>
                var n := SizeOf(old(v.blocks)[i]);
                SameBytes(q.bytes, old(q.bytes), p.value, ptr.value,
                          if Rounded(newSize) < n then Rounded(newSize) else n)
      ensures OthersUntouched(old(v.blocks), v.blocks, q.bytes, old(q.bytes), if ptr.Some? then i else -1)
    {
      hide Shape, FreeTotal, NoTwoFree, Given, Coalesced, Released, Rounded, Grown, Shrunk, SameBytes, HasRoom, Moved,
           DataSame, BothSame, Untouched, OthersUntouched, Resized, ByOffsets, FirstListed, Without, Accounted;
      ghost var bs, top, b0 := v.blocks, poolSize - ITEM, q.bytes;
      ItselfUntouched(q, v, top, q.bytes, -1);
      DifferentBlocks(q, v, top, {});
      b, k := Block(0, 0, false), 0;
      p := None;
      if newSize == 0 {
        if ptr.Some? { FreeKeeps(bs, i); }
        ghost var q0, v0 := q, v;
        Free(ptr, i);
        if ptr.Some? { AllFreed(q0, v0, top, v.blocks, q.bytes, i); }
        return;
      }
      var n := Rounded(newSize);
      RoundedIs(newSize);
      RoundedTwice(newSize);
      if ptr.None? {
        p, b, k := Fresh(n);
        return;
      }
      ghost var q0, v0 := q, v;
      NextIsEnd(q, v, top, {}, i);
      if i + 1 < |bs| { NextIsEnd(q, v, top, {}, i + 1); }
      p, b, k := Resize(ptr.value, n, i);
      if p.Some? { ResizedIs(q0, v0, i, k, n, p.value, v.blocks); }
    }
  }

  /** There is room exactly if some free block is large enough and there is more free than is asked for. */
  lemma HasRoomIs(q: Fields, v: View, poolSize: int, n: nat)
    requires Sound(q, v, poolSize)
    ensures HasRoom(q, v, n) <==>
              n < q.available && exists b :: b in v.blocks && !b.used && b.at + ITEM + n <= b.end
  {
    hide NoTwoFree, FreeTotal, Ring, Tiling;
    var top := poolSize - ITEM;
    if j :| 0 <= j < |v.free| && ListedSize(q, v, j) >= n {
      var i := FreeBlock(q, v, top, {}, j);
      assert v.blocks[i] in v.blocks;
    }
    if b :| b in v.blocks && !b.used && b.at + ITEM + n <= b.end {
      var i :| 0 <= i < |v.blocks| && v.blocks[i] == b;
      var k := FreePlace(q, v, top, {}, i);
      NextIsEnd(q, v, top, {}, i);
      assert ListedSize(q, v, k) >= n;
    }
  }

  /** With room in some block, a request is turned down exactly if that block is all the free space and fits it. */
  lemma RefusedExactly(q: Fields, v: View, poolSize: int, k: nat, n: nat)
    requires Sound(q, v, poolSize) && k < |v.free| && ListedSize(q, v, k) >= n
    ensures n >= q.available <==> ListedSize(q, v, k) == n == q.available
  {
    hide NoTwoFree, FreeTotal;
    var i := FreeBlock(q, v, poolSize - ITEM, {}, k);
    FreeTotalAtLeast(v.blocks, i);
  }

  /** A new heap turns down a request for all it has. */
  method WholeHeapRefused() returns (heap: MemHeap, p: Option<int>)
    ensures fresh(heap) && heap.Valid() && p.None?
    ensures heap.v.blocks == [Block(0, 40, false)] && SizeOf(heap.v.blocks[0]) == 16 == Rounded(16)
  {
    heap := new MemHeap(64);
    ghost var i;
    p, i := heap.Alloc(16);
  }

  lemma RoundedTwice(size: nat)
    ensures Rounded(Rounded(size)) == Rounded(size)
  {
  }

  lemma WholePrefix(bytes: seq<int>, b: Block, n: nat)
    requires 0 <= b.at && b.at + ITEM <= b.end <= |bytes|
    ensures SameBytes(bytes, bytes, b.at + ITEM, b.at + ITEM, if n < SizeOf(b) then n else SizeOf(b))
  {
  }

  lemma AllocKeeps(bs: Blocks, k: nat, size: nat)
    requires k < |bs| && !bs[k].used && SizeOf(bs[k]) >= size
    ensures k < |Given(bs, k, size)| && Given(bs, k, size)[k].used && Given(bs, k, size)[k].at == bs[k].at
    ensures SizeOf(Given(bs, k, size)[k]) >= size
    ensures forall j :: 0 <= j < |bs| && bs[j].used ==> bs[j] in Given(bs, k, size)
  {
    hide Given;
    GivenBlock(bs, k, size);
    forall j | 0 <= j < |bs| && bs[j].used
      ensures bs[j] in Given(bs, k, size)
    {
      var j' := GivenKeeps(bs, k, size, j);
    }
  }

  lemma GrownKeeps(bs: Blocks, i: nat, size: nat)
    requires i + 1 < |bs| && bs[i].used && !bs[i + 1].used
    ensures i < |Grown(bs, i, size)| && Grown(bs, i, size)[i] == Block(bs[i].at, bs[i].at + ITEM + size, true)
    ensures forall j :: 0 <= j < |bs| && j != i && bs[j].used ==> bs[j] in Grown(bs, i, size)
  {
    JoinShape(bs, i);
    SplitShape(JoinedWith(bs, i), i, bs[i].at + ITEM + size);
    hide JoinedWith, SplitAt;
    var r := Grown(bs, i, size);
    forall j | 0 <= j < |bs| && j != i && bs[j].used
      ensures bs[j] in r
    {
      assert bs[j] == r[j];
    }
  }

  lemma ShrunkKeeps(bs: Blocks, i: nat, size: nat)
    requires i < |bs| && bs[i].used
    ensures i < |Shrunk(bs, i, size)| && Shrunk(bs, i, size)[i] == Block(bs[i].at, bs[i].at + ITEM + size, true)
    ensures forall j :: 0 <= j < |bs| && j != i && bs[j].used ==> bs[j] in Shrunk(bs, i, size)
  {
    var halves := SplitAt(bs, i, bs[i].at + ITEM + size);
    SplitShape(bs, i, bs[i].at + ITEM + size);
    if i + 2 < |halves| && !halves[i + 2].used { JoinShape(halves, i + 1); }
    hide JoinedWith, SplitAt;
    var r := Shrunk(bs, i, size);
    forall j | 0 <= j < |bs| && j != i && bs[j].used
      ensures bs[j] in r
    {
      assert bs[j] == r[if j < i then j else if |r| == |bs| then j else j + 1];
    }
  }

  ghost function Copied(olds: seq<int>, dst: int, src: int, n: int): (r: seq<int>)
    requires 0 <= n && 0 <= dst && dst + n <= |olds| && 0 <= src && src + n <= |olds|
  {
    olds[..dst] + olds[src..src + n] + olds[dst + n..]
  }

  lemma CopyNone(olds: seq<int>, dst: int, src: int)
    requires 0 <= dst <= |olds| && 0 <= src <= |olds|
    ensures Copied(olds, dst, src, 0) == olds
  {
  }

  lemma CopyStep(olds: seq<int>, dst: int, src: int, k: nat)
    requires 0 <= dst && dst + k < |olds| && 0 <= src && src + k < |olds| && (dst + k < src || src + k < dst)
    ensures var r := Copied(olds, dst, src, k);
            |r| == |olds| && r[src + k] == olds[src + k] && Copied(olds, dst, src, k + 1) == r[dst + k := olds[src + k]]
  {
  }

  lemma CopiedIs(olds: seq<int>, dst: int, src: int, n: int, a: int, e: int)
    requires 0 <= n && 0 <= dst && dst + n <= |olds| && 0 <= src && src + n <= |olds| && 0 <= a <= e <= |olds|
    ensures |Copied(olds, dst, src, n)| == |olds| && Copied(olds, dst, src, n)[dst..dst + n] == olds[src..src + n]
    ensures e <= dst || dst + n <= a ==> Copied(olds, dst, src, n)[a..e] == olds[a..e]
  {
    var r := Copied(olds, dst, src, n);
    assert forall k :: 0 <= k < |olds| ==> r[k] == if dst <= k < dst + n then olds[k - dst + src] else olds[k];
    hide Copied;
    var copy, original := r[dst..dst + n], olds[src..src + n];
    forall k | 0 <= k < n
      ensures copy[k] == original[k]
    {
      assert r[dst + k] == olds[src + k];
    }
    if e <= dst || dst + n <= a {
      var part, was := r[a..e], olds[a..e];
      forall k | 0 <= k < e - a
        ensures part[k] == was[k]
      {
        assert r[a + k] == olds[a + k];
      }
    }
  }

  /** `n` bytes at `a` are what `n` bytes at `o` were. */
  ghost predicate SameBytes(bytes: seq<int>, olds: seq<int>, a: int, o: int, n: int) {
    0 <= n && 0 <= a && 0 <= o && a + n <= |bytes| && o + n <= |olds| && bytes[a..a + n] == olds[o..o + n]
  }

  /** A block is still there with the bytes it had. */
  ghost predicate Untouched(b: Block, bs: Blocks, bytes: seq<int>, olds: seq<int>) {
    b in bs && SameBytes(bytes, olds, b.at + ITEM, b.at + ITEM, SizeOf(b))
  }

  ghost predicate OthersUntouched(bs: Blocks, bs': Blocks, bytes: seq<int>, olds: seq<int>, except: int) {
    forall j :: 0 <= j < |bs| && j != except && bs[j].used ==> Untouched(bs[j], bs', bytes, olds)
  }

  lemma SameTrans(a: seq<int>, b: seq<int>, c: seq<int>, x: int, y: int, z: int, n: int)
    requires SameBytes(b, a, y, x, n) && SameBytes(c, b, z, y, n)
    ensures SameBytes(c, a, z, x, n)
  {
  }

  lemma SamePart(a: seq<int>, b: seq<int>, x: int, y: int, n: int, m: nat)
    requires SameBytes(b, a, y, x, n) && m <= n
    ensures SameBytes(b, a, y, x, m)
  {
    assert b[y..y + m] == b[y..y + n][..m] && a[x..x + m] == a[x..x + n][..m];
  }

  /** A stretch behind headers before and after keeps its bytes. */
  lemma KeptStretch(bs: Blocks, bs': Blocks, a: seq<int>, b: seq<int>, i: nat, j: nat, lo: int, n: nat)
    requires BothSame(bs, bs', a, b) && i < |bs| && j < |bs'| && 0 <= lo && lo + n <= |a|
    requires bs[i].at + ITEM <= lo && lo + n <= bs[i].end && bs'[j].at + ITEM <= lo && lo + n <= bs'[j].end
    ensures SameBytes(b, a, lo, lo, n)
  {
    forall k | lo <= k < lo + n
      ensures b[k] == a[k]
    {
      assert InData(bs, k) && InData(bs', k);
    }
    assert b[lo..lo + n] == a[lo..lo + n];
  }

  lemma KeptBlock(bs: Blocks, a: seq<int>, b: seq<int>, j: nat)
    requires DataSame(bs, a, b) && j < |bs| && 0 <= bs[j].at && bs[j].at + ITEM <= bs[j].end <= |a|
    ensures SameBytes(b, a, bs[j].at + ITEM, bs[j].at + ITEM, SizeOf(bs[j]))
  {
    KeptStretch(bs, bs, a, b, j, j, bs[j].at + ITEM, SizeOf(bs[j]));
  }

  lemma ItselfUntouched(q: Fields, v: View, top: int, bytes: seq<int>, except: int)
    requires Shape(q, v, top, {}) && |bytes| >= top
    ensures OthersUntouched(v.blocks, v.blocks, bytes, bytes, except)
  {
    AllUntouched(q, v, top, {}, bytes);
  }

  lemma AllFreed(q: Fields, v: View, top: int, bs': Blocks, bytes: seq<int>, i: nat)
    requires Shape(q, v, top, {}) && i < |v.blocks| && |q.bytes| >= top && DataSame(v.blocks, q.bytes, bytes)
    requires Different(v.blocks) && forall b :: b in v.blocks && b.used && b != v.blocks[i] ==> b in bs'
    ensures OthersUntouched(v.blocks, bs', bytes, q.bytes, i)
  {
    hide Shape, DataSame, SameBytes;
    forall j | 0 <= j < |v.blocks| && j != i && v.blocks[j].used
      ensures Untouched(v.blocks[j], bs', bytes, q.bytes)
    {
      NextIsEnd(q, v, top, {}, j);
      KeptBlock(v.blocks, q.bytes, bytes, j);
      assert v.blocks[j] in v.blocks && v.blocks[j] != v.blocks[i];
    }
  }

  lemma AllGiven(bs: Blocks, q: Fields, v: View, top: int, olds: seq<int>)
    requires Shape(q, v, top, {}) && |q.bytes| >= top && DataSame(v.blocks, olds, q.bytes)
    requires forall j :: 0 <= j < |bs| && bs[j].used ==> bs[j] in v.blocks
    ensures OthersUntouched(bs, v.blocks, q.bytes, olds, -1)
  {
    SameLength(v.blocks, olds, q.bytes);
    hide Shape, DataSame, SameBytes;
    forall j | 0 <= j < |bs| && bs[j].used
      ensures Untouched(bs[j], v.blocks, q.bytes, olds)
    {
      var j' :| 0 <= j' < |v.blocks| && v.blocks[j'] == bs[j];
      NextIsEnd(q, v, top, {}, j');
      KeptBlock(v.blocks, olds, q.bytes, j');
    }
  }

  lemma AllGrown(q: Fields, v: View, top: int, bs': Blocks, bytes: seq<int>, i: nat, n: nat)
    requires Shape(q, v, top, {}) && i < |v.blocks| && |q.bytes| >= top && BothSame(v.blocks, bs', q.bytes, bytes)
    requires i < |bs'| && bs'[i] == Block(v.blocks[i].at, v.blocks[i].at + ITEM + n, true) && n >= SizeOf(v.blocks[i])
    requires forall j :: 0 <= j < |v.blocks| && j != i && v.blocks[j].used ==> v.blocks[j] in bs'
    ensures OthersUntouched(v.blocks, bs', bytes, q.bytes, i)
    ensures SameBytes(bytes, q.bytes, v.blocks[i].at + ITEM, v.blocks[i].at + ITEM, SizeOf(v.blocks[i]))
  {
    hide Shape, BothSame, SameBytes;
    NextIsEnd(q, v, top, {}, i);
    KeptStretch(v.blocks, bs', q.bytes, bytes, i, i, v.blocks[i].at + ITEM, SizeOf(v.blocks[i]));
    forall j | 0 <= j < |v.blocks| && j != i && v.blocks[j].used
      ensures Untouched(v.blocks[j], bs', bytes, q.bytes)
    {
      NextIsEnd(q, v, top, {}, j);
      var j' :| 0 <= j' < |bs'| && bs'[j'] == v.blocks[j];
      KeptStretch(v.blocks, bs', q.bytes, bytes, j, j', v.blocks[j].at + ITEM, SizeOf(v.blocks[j]));
    }
  }

  lemma AllShrunk(q: Fields, v: View, top: int, bs': Blocks, bytes: seq<int>, i: nat, n: nat)
    requires Shape(q, v, top, {}) && i < |v.blocks| && |q.bytes| >= top && n < SizeOf(v.blocks[i])
    requires DataSame(SplitAt(v.blocks, i, v.blocks[i].at + ITEM + n), q.bytes, bytes)
    requires forall j :: 0 <= j < |v.blocks| && j != i && v.blocks[j].used ==> v.blocks[j] in bs'
    ensures OthersUntouched(v.blocks, bs', bytes, q.bytes, i)
    ensures SameBytes(bytes, q.bytes, v.blocks[i].at + ITEM, v.blocks[i].at + ITEM, n)
  {
    var halves := SplitAt(v.blocks, i, v.blocks[i].at + ITEM + n);
    SplitShape(v.blocks, i, v.blocks[i].at + ITEM + n);
    hide Shape, DataSame, SameBytes, SplitAt;
    NextIsEnd(q, v, top, {}, i);
    KeptBlock(halves, q.bytes, bytes, i);
    forall j | 0 <= j < |v.blocks| && j != i && v.blocks[j].used
      ensures Untouched(v.blocks[j], bs', bytes, q.bytes)
    {
      NextIsEnd(q, v, top, {}, j);
      KeptBlock(halves, q.bytes, bytes, if j < i then j else j + 1);
    }
  }

  /** What is copied to block `k` is there after block `i` has been freed. */
  lemma CarriedOver(bs: Blocks, top: int, i: nat, k: nat, n: nat, b0: seq<int>, b1: seq<int>, b2: seq<int>,
                    b3: seq<int>)
    requires i < |bs| && k < |bs| && 0 <= bs[i].at && bs[i].end <= top && 0 <= bs[k].at && bs[k].end <= top
    requires n == SizeOf(bs[i]) && n <= SizeOf(bs[k]) && |b0| >= top && |b1| == |b0|
    requires DataSame(bs, b0, b1) && DataSame(bs, b2, b3) && b2 == Copied(b1, bs[k].at + ITEM, bs[i].at + ITEM, n)
    ensures SameBytes(b3, b0, bs[k].at + ITEM, bs[i].at + ITEM, n)
  {
    hide DataSame;
    var dst, src := bs[k].at + ITEM, bs[i].at + ITEM;
    CopiedIs(b1, dst, src, n, 0, 0);
    hide Copied;
    KeptBlock(bs, b0, b1, i);
    KeptBlock(bs, b2, b3, k);
    SamePart(b2, b3, dst, dst, SizeOf(bs[k]), n);
    SameTrans(b0, b1, b2, src, src, dst, n);
    SameTrans(b0, b2, b3, src, dst, dst, n);
  }

  /** Blocks that are neither the old one nor the new one keep their bytes through allocation and copy. */
  lemma OthersMoved(bs: Blocks, k: nat, size: nat, i: nat, i': nat, q: Fields, v: View, top: int,
                    b0: seq<int>, b1: seq<int>, b2: seq<int>, n: nat)
    requires k < |bs| && !bs[k].used && i < |bs| && bs[i].used && Different(bs)
    requires Shape(q, v, top, {}) && v.blocks == Given(bs, k, size) && k < |v.blocks| && i' < |v.blocks| && i' != k
    requires v.blocks[i'] == bs[i] && |b0| >= top && DataSame(v.blocks, b0, b1)
    requires n <= SizeOf(v.blocks[k]) && v.blocks[k].end <= top && 0 <= v.blocks[k].at
    requires n <= SizeOf(bs[i]) && 0 <= bs[i].at && bs[i].end <= top && |b1| == |b0|
    requires b2 == Copied(b1, v.blocks[k].at + ITEM, bs[i].at + ITEM, n)
    ensures forall j :: 0 <= j < |bs| && j != i && bs[j].used ==>
              && bs[j] in v.blocks && bs[j] != v.blocks[i'] && bs[j].at >= 0
              && SameBytes(b2, b0, bs[j].at + ITEM, bs[j].at + ITEM, SizeOf(bs[j]))
  {
    hide Shape, DataSame, SameBytes, Given, Copied;
    forall j | 0 <= j < |bs| && j != i && bs[j].used
      ensures bs[j] in v.blocks && bs[j] != v.blocks[i'] && bs[j].at >= 0
      ensures SameBytes(b2, b0, bs[j].at + ITEM, bs[j].at + ITEM, SizeOf(bs[j]))
    {
      OtherBlock(bs, k, size, i, i', j, q, v, top, b2, b1, n);
      var j' :| 0 <= j' < |v.blocks| && v.blocks[j'] == bs[j];
      NextIsEnd(q, v, top, {}, j');
      KeptBlock(v.blocks, b0, b1, j');
      var at := bs[j].at + ITEM;
      SameTrans(b0, b1, b2, at, at, at, SizeOf(bs[j]));
    }
  }

  /** They also keep them when the old block is freed. */
  lemma OthersFreed(bs: Blocks, given: Blocks, bs': Blocks, top: int, i: nat, i': nat, b0: seq<int>, b2: seq<int>,
                    b3: seq<int>)
    requires i' < |given| && DataSame(given, b2, b3)
    requires forall j :: 0 <= j < |bs| && j != i && bs[j].used ==>
               && bs[j] in given && bs[j] != given[i'] && bs[j].at >= 0
               && SameBytes(b2, b0, bs[j].at + ITEM, bs[j].at + ITEM, SizeOf(bs[j]))
    requires forall b :: b in given && b.used && b != given[i'] ==> b in bs'
    ensures OthersUntouched(bs, bs', b3, b0, i)
  {
    hide DataSame;
    forall j | 0 <= j < |bs| && j != i && bs[j].used
      ensures Untouched(bs[j], bs', b3, b0)
    {
      var j' :| 0 <= j' < |given| && given[j'] == bs[j];
      KeptBlock(given, b2, b3, j');
      var at := bs[j].at + ITEM;
      SameTrans(b0, b2, b3, at, at, at, SizeOf(bs[j]));
    }
  }

  lemma AllUntouched(q: Fields, v: View, top: int, holes: set<int>, bytes: seq<int>)
    requires Shape(q, v, top, holes) && |bytes| >= top
    ensures forall j :: 0 <= j < |v.blocks| ==> Untouched(v.blocks[j], v.blocks, bytes, bytes)
  {
    forall j | 0 <= j < |v.blocks|
      ensures Untouched(v.blocks[j], v.blocks, bytes, bytes)
    {
      NextIsEnd(q, v, top, holes, j);
    }
  }

  /** The other blocks only move to other indices. */
  lemma GivenKeeps(bs: Blocks, k: nat, size: nat, i: nat) returns (i': nat)
    requires k < |bs| && i < |bs| && i != k
    ensures i' < |Given(bs, k, size)| && Given(bs, k, size)[i'] == bs[i] && i' != k
    ensures |Given(bs, k, size)| >= |bs| && i' == NewIndex(bs, Given(bs, k, size), i, k)
  {
    var cut := bs[k].at + ITEM + size;
    SplitShape(bs, k, cut);
    MarkShape(bs, k, true);
    MarkShape(SplitAt(bs, k, cut), k, true);
    hide SplitAt, MarkedAs;
    i' := if i > k && SizeOf(bs[k]) >= size + ITEM + MINI_ALLOC then i + 1 else i;
  }

  lemma GivenBlock(bs: Blocks, k: nat, size: nat)
    requires k < |bs| && SizeOf(bs[k]) >= size
    ensures k < |Given(bs, k, size)|
    ensures var b := Given(bs, k, size)[k]; b.at == bs[k].at && b.used && SizeOf(b) >= size
  {
    var cut := bs[k].at + ITEM + size;
    SplitShape(bs, k, cut);
    MarkShape(bs, k, true);
    MarkShape(SplitAt(bs, k, cut), k, true);
    hide SplitAt, MarkedAs;
  }

  lemma BlocksApart(q: Fields, v: View, top: int, holes: set<int>, i: nat, j: nat)
    requires Shape(q, v, top, holes) && i < |v.blocks| && j < |v.blocks| && i != j
    ensures v.blocks[i].end <= v.blocks[j].at || v.blocks[j].end <= v.blocks[i].at
    ensures v.blocks[i] != v.blocks[j]
  {
    Disjoint(v.blocks, top, ITEM, i, j);
    assert Aligned(v.blocks[i], ITEM) && Aligned(v.blocks[j], ITEM);
  }

  /** A block that is neither the old one nor the new one keeps its bytes through the copy. */
  lemma OtherBlock(bs: Blocks, k: nat, size: nat, i: nat, i': nat, j: nat, q: Fields, v: View, top: int,
                   bytes: seq<int>, olds: seq<int>, n: nat)
    requires k < |bs| && !bs[k].used && i < |bs| && j < |bs| && bs[j].used && bs[i].used && j != i
    requires Shape(q, v, top, {}) && v.blocks == Given(bs, k, size) && k < |v.blocks| && i' < |v.blocks| && i' != k
    requires v.blocks[i'] == bs[i] && Different(bs) && |olds| >= top
    requires n <= SizeOf(v.blocks[k]) && v.blocks[k].end <= top && 0 <= v.blocks[k].at
    requires n <= SizeOf(bs[i]) && 0 <= bs[i].at && bs[i].end <= top
    requires bytes == Copied(olds, v.blocks[k].at + ITEM, bs[i].at + ITEM, n)
    ensures bs[j] in v.blocks && bs[j] != v.blocks[i']
    ensures SameBytes(bytes, olds, bs[j].at + ITEM, bs[j].at + ITEM, SizeOf(bs[j]))
  {
    hide Shape, Given;
    var j' := GivenKeeps(bs, k, size, j);
    NextIsEnd(q, v, top, {}, j');
    NextIsEnd(q, v, top, {}, k);
    BlocksApart(q, v, top, {}, j', k);
    assert bs[j] != bs[i];
    CopiedIs(olds, v.blocks[k].at + ITEM, bs[i].at + ITEM, n, bs[j].at + ITEM, bs[j].end);
  }

  ghost predicate Different(bs: Blocks) {
    forall i, j :: 0 <= i < j < |bs| ==> bs[i] != bs[j]
  }

  lemma DifferentBlocks(q: Fields, v: View, top: int, holes: set<int>)
    requires Shape(q, v, top, holes)
    ensures Different(v.blocks)
  {
    forall i, j | 0 <= i < j < |v.blocks|
      ensures v.blocks[i] != v.blocks[j]
    {
      BlocksApart(q, v, top, holes, i, j);
    }
  }

  lemma FreeKeeps(bs: Blocks, i: nat)
    requires i < |bs| && bs[i].used
    ensures forall b :: b in bs && b.used && b != bs[i] ==> b in Coalesced(Released(bs, i), i)
  {
    ReleasedShape(bs, i);
    CoalescedMembers(Released(bs, i), i);
    hide Coalesced, Released;
    forall b | b in bs && b.used && b != bs[i]
      ensures b in Coalesced(Released(bs, i), i)
    {
      var j :| 0 <= j < |bs| && bs[j] == b;
      assert Released(bs, i)[j] == b;
    }
  }

  lemma PeakKept(m0: Fields, m: Fields, poolSize: int)
    requires m.maxUsed == if poolSize - m.available > m0.maxUsed then poolSize - m.available else m0.maxUsed
    ensures Peak(m0, m, poolSize) && m.maxUsed >= poolSize - m.available
  {
  }

  ghost function Grown(bs: Blocks, i: nat, size: nat): (r: Blocks)
    requires i + 1 < |bs|
  {
    SplitAt(JoinedWith(bs, i), i, bs[i].at + ITEM + size)
  }

  ghost function Shrunk(bs: Blocks, i: nat, size: nat): (r: Blocks)
    requires i < |bs|
  {
    RightJoined(SplitAt(bs, i, bs[i].at + ITEM + size), i + 1)
  }

  /** The block takes what it needs from the free block behind it, which keeps the rest. */
  lemma GrownIs(bs: Blocks, i: nat, size: nat)
    requires i + 1 < |bs|
    ensures var cut := bs[i].at + ITEM + size;
            Grown(bs, i, size) ==
            bs[..i] + [Block(bs[i].at, cut, bs[i].used), Block(cut, bs[i + 1].end, false)] + bs[i + 2..]
  {
    JoinShape(bs, i);
    SplitShape(JoinedWith(bs, i), i, bs[i].at + ITEM + size);
    hide JoinedWith, SplitAt;
  }

  /** The block keeps `size` bytes; the rest is one free block with a free block behind it. */
  lemma ShrunkIs(bs: Blocks, i: nat, size: nat)
    requires i < |bs|
    ensures var cut := bs[i].at + ITEM + size;
            var l := if i + 1 < |bs| && !bs[i + 1].used then i + 1 else i;
            Shrunk(bs, i, size) ==
            bs[..i] + [Block(bs[i].at, cut, bs[i].used), Block(cut, bs[l].end, false)] + bs[l + 1..]
  {
    var cut := bs[i].at + ITEM + size;
    SplitShape(bs, i, cut);
    if i + 1 < |bs| { JoinShape(SplitAt(bs, i, cut), i + 1); }
    hide JoinedWith, SplitAt;
  }

  /** rt_memheap_realloc in terms of the offsets: grown in place, moved, cut, or as it was. */
  ghost predicate ByOffsets(bs: Blocks, i: nat, k: nat, n: nat, p: int, bs': Blocks)
    requires i < |bs|
  {
    var b, cut := bs[i], bs[i].at + ITEM + n;
    var free := i + 1 < |bs| && !bs[i + 1].used;
    if b.end < cut then
      if free && cut + ITEM + MINI_ALLOC < bs[i + 1].end then
        && p == b.at + ITEM
        && bs' == bs[..i] + [Block(b.at, cut, true), Block(cut, bs[i + 1].end, false)] + bs[i + 2..]
      else
        k < |bs| && !bs[k].used && p == bs[k].at + ITEM && p + n <= bs[k].end
    else if cut + ITEM + MINI_ALLOC < b.end then
      var l := if free then i + 1 else i;
      && p == b.at + ITEM
      && bs' == bs[..i] + [Block(b.at, cut, true), Block(cut, bs[l].end, false)] + bs[l + 1..]
    else p == b.at + ITEM && bs' == bs
  }

  lemma ResizedIs(q: Fields, v: View, i: nat, k: nat, n: nat, p: int, bs': Blocks)
    requires i < |v.blocks| && v.blocks[i].used && Resized(q, v, i, k, n, p, bs')
    requires i + 1 < |v.blocks| ==> v.blocks[i].end == v.blocks[i + 1].at
    ensures ByOffsets(v.blocks, i, k, n, p, bs')
  {
    hide Grown, Shrunk, Moved;
    if i + 1 < |v.blocks| { GrownIs(v.blocks, i, n); }
    ShrunkIs(v.blocks, i, n);
  }

  lemma GrownSparse(bs: Blocks, i: nat, size: nat)
    requires i + 1 < |bs| && bs[i].used && !bs[i + 1].used && NoTwoFree(bs)
    ensures NoTwoFree(Grown(bs, i, size))
  {
    JoinShape(bs, i);
    SplitShape(JoinedWith(bs, i), i, bs[i].at + ITEM + size);
    hide JoinedWith, SplitAt;
    var r := Grown(bs, i, size);
    forall k | 0 <= k < |r| - 1
      ensures r[k].used || r[k + 1].used
    {
      if k != i { assert bs[k].used || bs[k + 1].used; }
    }
  }

  lemma ShrunkSparse(bs: Blocks, i: nat, size: nat)
    requires i < |bs| && bs[i].used && NoTwoFree(bs)
    ensures NoTwoFree(Shrunk(bs, i, size))
  {
    var halves := SplitAt(bs, i, bs[i].at + ITEM + size);
    SplitShape(bs, i, bs[i].at + ITEM + size);
    if i + 2 < |halves| && !halves[i + 2].used { JoinShape(halves, i + 1); }
    hide JoinedWith, SplitAt;
    var r := Shrunk(bs, i, size);
    forall k | 0 <= k < |r| - 1
      ensures r[k].used || r[k + 1].used
    {
      if k < i - 1 {
        assert bs[k].used || bs[k + 1].used;
      } else if k > i {
        var d := if |r| == |bs| then 0 else 1;
        assert k - d >= i;
        assert bs[k - d].used || bs[k - d + 1].used;
      }
    }
  }

  ghost function LeftIndex(bs: Blocks, i: nat): (h: nat)
    requires i < |bs|
  {
    if i > 0 && !bs[i - 1].used then i - 1 else i
  }

  ghost function LeftJoined(bs: Blocks, i: nat): (r: Blocks)
    requires i < |bs|
  {
    if i > 0 && !bs[i - 1].used then JoinedWith(bs, i - 1) else bs
  }

  ghost function RightJoined(bs: Blocks, i: nat): (r: Blocks)
    requires i < |bs|
  {
    if i + 1 < |bs| && !bs[i + 1].used then JoinedWith(bs, i) else bs
  }

  /** Joining to the left first or to the right first comes to the same. */
  lemma BothJoined(bs: Blocks, i: nat)
    requires i < |bs| && !bs[i].used
    ensures LeftIndex(bs, i) < |LeftJoined(bs, i)|
    ensures RightJoined(LeftJoined(bs, i), LeftIndex(bs, i)) == Coalesced(bs, i)
  {
    if i > 0 {
      JoinShape(bs, i - 1);
      SameJoin(bs, i - 1);
    }
    if i + 1 < |bs| { SameJoin(bs, i); }
    hide JoinedWith, Joined;
    if i > 0 && i + 1 < |bs| && !bs[i - 1].used && !bs[i + 1].used { JoinedTwice(bs, i); }
  }

  lemma SameJoin(bs: Blocks, i: nat)
    requires i + 1 < |bs|
    ensures !bs[i].used ==> JoinedWith(bs, i) == Joined(bs, i)
  {
    JoinShape(bs, i);
    JoinedShape(bs, i);
    hide JoinedWith, Joined;
    assert !bs[i].used ==> JoinedWith(bs, i) == Joined(bs, i);
  }

  lemma JoinedTwice(bs: Blocks, i: nat)
    requires 0 < i && i + 1 < |bs| && !bs[i - 1].used && !bs[i].used
    ensures |JoinedWith(bs, i - 1)| == |Joined(bs, i)| == |bs| - 1
    ensures JoinedWith(JoinedWith(bs, i - 1), i - 1) == Joined(Joined(bs, i), i - 1)
  {
    JoinShape(bs, i - 1);
    JoinedShape(bs, i);
    hide JoinedWith, Joined;
    JoinShape(JoinedWith(bs, i - 1), i - 1);
    JoinedShape(Joined(bs, i), i - 1);
    assert JoinedWith(JoinedWith(bs, i - 1), i - 1) == Joined(Joined(bs, i), i - 1);
  }

  lemma UsedNotListed(q: Fields, v: View, top: int, holes: set<int>, i: nat)
    requires Shape(q, v, top, holes) && i < |v.blocks| && v.blocks[i].used
    ensures v.blocks[i].at !in v.free
  {
  }

  ghost predicate Peak(m0: Fields, m: Fields, poolSize: int) {
    m.maxUsed == if poolSize - m.available > m0.maxUsed then poolSize - m.available else m0.maxUsed
  }

  lemma BlockAligned(q: Fields, v: View, top: int, holes: set<int>, i: nat)
    requires Shape(q, v, top, holes) && i < |v.blocks|
    ensures v.blocks[i].at % RT_ALIGN_SIZE == 0 && v.blocks[i].end % RT_ALIGN_SIZE == 0
  {
    assert Aligned(v.blocks[i], ITEM);
  }

  /** The counters are not part of the shape. */
  lemma SameShape(q: Fields, q': Fields, v: View, top: int, holes: set<int>)
    requires Shape(q, v, top, holes) && q' == q.(available := q'.available, maxUsed := q'.maxUsed, bytes := q'.bytes)
    ensures Shape(q', v, top, holes)
  {
  }

  lemma RoundedIs(size: nat)
    ensures Rounded(size) >= size && Rounded(size) % RT_ALIGN_SIZE == 0 && Rounded(size) >= MINI_ALLOC
  {
  }

  lemma ListedSizeIs(q: Fields, v: View, k: nat)
    requires k < |v.free| && v.free[k] in q.next
    ensures ListedSize(q, v, k) == q.next[v.free[k]] - v.free[k] - ITEM
  {
  }

  lemma FirstBlock(q: Fields, v: View, poolSize: int)
    requires poolSize >= 2 * ITEM && poolSize % RT_ALIGN_SIZE == 0
    requires v == View([Block(0, poolSize - ITEM, false)], [0])
    requires var top := poolSize - ITEM;
             q == Fields(map[0 := false, top := true], map[0 := top, top := 0], map[0 := top, top := 0],
                         map[HEAD := 0, 0 := HEAD], map[HEAD := 0, 0 := HEAD], poolSize - 2 * ITEM, 2 * ITEM, q.bytes)
    ensures Sound(q, v, poolSize)
  {
    var top := poolSize - ITEM;
    var ats := Ats(v.blocks);
    assert ats == [0];
    FreeTotalFew(v.blocks[0], v.blocks[0]);
    forall k | 0 <= k <= 1
      ensures Linked(q.next, q.prev, Before(top, [0], k), At(top, [0], k))
      ensures Linked(q.nextFree, q.prevFree, Before(HEAD, [0], k), At(HEAD, [0], k))
    {
    }
  }
}
