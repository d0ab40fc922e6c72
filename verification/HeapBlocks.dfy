/**
 The blocks a heap is cut into, as values: tiling, replacing neighbours, and who is free.

 A block reaches from its header at `at` to the next header at `end`; a header takes `hdr` bytes.
 */
module HeapBlocks {

  const RT_ALIGN_SIZE: int := 4

  datatype Block = Block(at: int, end: int, used: bool)

  type Blocks = seq<Block>

  ghost predicate Aligned(b: Block, hdr: nat) {
    b.at % RT_ALIGN_SIZE == 0 && b.end % RT_ALIGN_SIZE == 0 && b.at + hdr <= b.end
  }

  ghost predicate AllAligned(bs: Blocks, hdr: nat) {
    forall i :: 0 <= i < |bs| ==> Aligned(bs[i], hdr)
  }

  /** Each block ends where the next begins. */
  ghost predicate Adjacent(bs: Blocks) {
    forall i :: 0 <= i < |bs| - 1 ==> bs[i].end == bs[i + 1].at
  }

  /** The blocks cover the heap from 0 to `top` without gap or overlap, at aligned offsets. */
  ghost predicate Tiling(bs: Blocks, top: int, hdr: nat) {
    && |bs| >= 1 && bs[0].at == 0 && bs[|bs| - 1].end == top
    && AllAligned(bs, hdr)
    && Adjacent(bs)
  }

  ghost predicate NoTwoFree(bs: Blocks) {
    forall i :: 0 <= i < |bs| - 1 ==> bs[i].used || bs[i + 1].used
  }

  /** The bytes in used blocks, headers included. */
  ghost function UsedTotal(bs: Blocks): (n: int) {
    if bs == [] then 0 else UsedTotal(bs[1..]) + if bs[0].used then bs[0].end - bs[0].at else 0
  }

  /** Where the block with index `i` begins; the end of the heap for the index behind the last. */
  ghost function Offset(bs: Blocks, top: int, i: nat): (at: int)
    requires i <= |bs|
  {
    if i < |bs| then bs[i].at else top
  }

  // ----- order -----

  lemma {:induction false} InOrder(bs: Blocks, top: int, hdr: nat, i: nat, j: nat)
    requires Tiling(bs, top, hdr) && i < j < |bs|
    ensures bs[i].end <= bs[j].at
    decreases j
  {
    if i < j - 1 {
      InOrder(bs, top, hdr, i, j - 1);
      assert Aligned(bs[j - 1], hdr);
    }
  }

  lemma WithinHeap(bs: Blocks, top: int, hdr: nat, i: nat)
    requires Tiling(bs, top, hdr) && i < |bs| && hdr > 0
    ensures 0 <= bs[i].at && bs[i].at + hdr <= bs[i].end <= top && (bs[i].end == top <==> i == |bs| - 1)
  {
    assert Aligned(bs[i], hdr) && Aligned(bs[0], hdr);
    if i > 0 { InOrder(bs, top, hdr, 0, i); }
    if i < |bs| - 1 {
      InOrder(bs, top, hdr, i, |bs| - 1);
      assert Aligned(bs[|bs| - 1], hdr);
    }
  }

  /** Offsets grow with the index, so blocks are found by their offsets. */
  lemma OffsetOrder(bs: Blocks, top: int, hdr: nat, i: nat, j: nat)
    requires Tiling(bs, top, hdr) && hdr > 0 && i < |bs| && j < |bs|
    ensures bs[i].at < bs[j].at <==> i < j
    ensures bs[i].at == bs[j].at <==> i == j
  {
    assert Aligned(bs[i], hdr) && Aligned(bs[j], hdr);
    if i < j { InOrder(bs, top, hdr, i, j); }
    if j < i { InOrder(bs, top, hdr, j, i); }
  }

  /** Two different blocks share no byte. */
  lemma Disjoint(bs: Blocks, top: int, hdr: nat, i: nat, j: nat)
    requires Tiling(bs, top, hdr) && i < |bs| && j < |bs| && i != j
    ensures bs[i].end <= bs[j].at || bs[j].end <= bs[i].at
  {
    if i < j { InOrder(bs, top, hdr, i, j); } else { InOrder(bs, top, hdr, j, i); }
  }

  // ----- totals -----

  lemma {:induction false} UsedTotalConcat(a: Blocks, b: Blocks)
    ensures UsedTotal(a + b) == UsedTotal(a) + UsedTotal(b)
  {
    if a == [] {
      assert a + b == b;
    } else {
      assert (a + b)[1..] == a[1..] + b;
      UsedTotalConcat(a[1..], b);
    }
  }

  // ----- replacing a run of blocks -----

  /** `bs` with the blocks from `i` up to `j` replaced by `mid`. */
  function Replace(bs: Blocks, i: nat, j: nat, mid: Blocks): (r: Blocks)
    requires i <= j <= |bs|
    ensures |r| == i + |mid| + (|bs| - j)
  {
    bs[..i] + mid + bs[j..]
  }

  lemma Replaced(bs: Blocks, i: nat, j: nat, mid: Blocks)
    requires i <= j <= |bs|
    ensures var r := Replace(bs, i, j, mid);
            && (forall k :: 0 <= k < i ==> r[k] == bs[k])
            && (forall k :: i <= k < i + |mid| ==> r[k] == mid[k - i])
            && (forall k :: i + |mid| <= k < |r| ==> r[k] == bs[k - i - |mid| + j])
  {
  }

  /** Replacing neighbours by blocks that cover the same stretch keeps the tiling. */
  lemma ReplaceTiling(bs: Blocks, top: int, hdr: nat, i: nat, j: nat, mid: Blocks)
    requires Tiling(bs, top, hdr) && i < j <= |bs|
    requires |mid| >= 1 && mid[0].at == bs[i].at && mid[|mid| - 1].end == bs[j - 1].end
    requires AllAligned(mid, hdr) && Adjacent(mid)
    ensures Tiling(Replace(bs, i, j, mid), top, hdr)
  {
    Replaced(bs, i, j, mid);
    hide Aligned, Replace;
    var r := Replace(bs, i, j, mid);
    forall k | 0 <= k < |r| - 1
      ensures r[k].end == r[k + 1].at
    {
      if k + 1 < i || k >= i + |mid| {
      } else if k + 1 == i {
      } else if k + 1 < i + |mid| {
        assert r[k] == mid[k - i] && r[k + 1] == mid[k - i + 1];
      }
    }
  }

  lemma ReplaceUsedTotal(bs: Blocks, i: nat, j: nat, mid: Blocks)
    requires i <= j <= |bs|
    ensures UsedTotal(Replace(bs, i, j, mid)) == UsedTotal(bs) - UsedTotal(bs[i..j]) + UsedTotal(mid)
  {
    hide UsedTotal;
    var a, b, c := bs[..i], bs[i..j], bs[j..];
    assert bs == a + (b + c) && Replace(bs, i, j, mid) == a + (mid + c);
    UsedTotalConcat(a, b + c);
    UsedTotalConcat(b, c);
    UsedTotalConcat(mid, c);
    UsedTotalConcat(a, mid + c);
  }

  lemma UsedTotalFew(a: Block, b: Block)
    ensures UsedTotal([a]) == if a.used then a.end - a.at else 0
    ensures UsedTotal([a, b]) == UsedTotal([a]) + UsedTotal([b])
  {
    assert [a][1..] == [] && [a, b][1..] == [b];
  }

  // ----- freeing a block and joining free neighbours -----

  ghost function Joined(bs: Blocks, i: nat): (r: Blocks)
    requires i + 1 < |bs|
  {
    Replace(bs, i, i + 2, [Block(bs[i].at, bs[i + 1].end, false)])
  }

  lemma JoinedShape(bs: Blocks, i: nat)
    requires i + 1 < |bs|
    ensures |Joined(bs, i)| == |bs| - 1
    ensures forall k :: 0 <= k < i ==> Joined(bs, i)[k] == bs[k]
    ensures Joined(bs, i)[i] == Block(bs[i].at, bs[i + 1].end, false)
    ensures forall k :: i < k < |bs| - 1 ==> Joined(bs, i)[k] == bs[k + 1]
  {
    Replaced(bs, i, i + 2, [Block(bs[i].at, bs[i + 1].end, false)]);
  }

  /** The free block `i` joined with the free blocks beside it. */
  ghost function Coalesced(bs: Blocks, i: nat): (r: Blocks)
    requires i < |bs|
  {
    var r := if i + 1 < |bs| && !bs[i + 1].used then Joined(bs, i) else bs;
    if i > 0 && !bs[i - 1].used then Joined(r, i - 1) else r
  }

  /** The free block and its free neighbours become one block. */
  lemma CoalescedIs(bs: Blocks, i: nat)
    requires i < |bs| && !bs[i].used
    ensures var f := if i > 0 && !bs[i - 1].used then i - 1 else i;
            var l := if i + 1 < |bs| && !bs[i + 1].used then i + 1 else i;
            Coalesced(bs, i) == bs[..f] + [Block(bs[f].at, bs[l].end, false)] + bs[l + 1..]
  {
    hide Joined;
    var r := bs;
    if i + 1 < |bs| && !bs[i + 1].used {
      JoinedShape(bs, i);
      r := Joined(bs, i);
    }
    if i > 0 && !bs[i - 1].used { JoinedShape(r, i - 1); }
  }

  /** A block is freed: it and its free neighbours become one block, and nothing else changes. */
  lemma FreedIs(bs: Blocks, i: nat)
    requires i < |bs|
    ensures var f := if i > 0 && !bs[i - 1].used then i - 1 else i;
            var l := if i + 1 < |bs| && !bs[i + 1].used then i + 1 else i;
            Coalesced(Released(bs, i), i) == bs[..f] + [Block(bs[f].at, bs[l].end, false)] + bs[l + 1..]
  {
    hide Coalesced, Released;
    ReleasedShape(bs, i);
    CoalescedIs(Released(bs, i), i);
  }

  /** Joining leaves no two free blocks side by side, if only block `i` had free neighbours. */
  lemma CoalescedSparse(bs: Blocks, i: nat)
    requires i < |bs| && !bs[i].used
    requires forall k :: 0 <= k < |bs| - 1 && k != i && k != i - 1 ==> bs[k].used || bs[k + 1].used
    ensures NoTwoFree(Coalesced(bs, i))
  {
    hide Joined;
    var r := bs;
    if i + 1 < |bs| && !bs[i + 1].used {
      JoinedShape(bs, i);
      r := Joined(bs, i);
    }
    assert forall k :: 0 <= k < |r| - 1 && k != i - 1 ==> r[k].used || r[k + 1].used;
    if i > 0 && !bs[i - 1].used {
      JoinedShape(r, i - 1);
    }
  }

  ghost function Released(bs: Blocks, i: nat): (r: Blocks)
    requires i < |bs|
  {
    Replace(bs, i, i + 1, [bs[i].(used := false)])
  }

  lemma ReleasedShape(bs: Blocks, i: nat)
    requires i < |bs|
    ensures Released(bs, i) == bs[i := bs[i].(used := false)]
  {
    Replaced(bs, i, i + 1, [bs[i].(used := false)]);
  }

  lemma ReleasedSparse(bs: Blocks, i: nat)
    requires i < |bs| && bs[i].used && NoTwoFree(bs)
    ensures NoTwoFree(Coalesced(Released(bs, i), i))
  {
    hide Coalesced, Released;
    ReleasedShape(bs, i);
    CoalescedSparse(Released(bs, i), i);
  }

  lemma JoinedMembers(bs: Blocks, i: nat)
    requires i + 1 < |bs| && !bs[i].used && !bs[i + 1].used
    ensures forall b :: b in bs && b.used ==> b in Joined(bs, i)
  {
    JoinedShape(bs, i);
    hide Joined;
    forall b | b in bs && b.used
      ensures b in Joined(bs, i)
    {
      var j :| 0 <= j < |bs| && bs[j] == b;
      assert b == Joined(bs, i)[if j < i then j else j - 1];
    }
  }

  /** Used blocks come through joining untouched. */
  lemma CoalescedMembers(bs: Blocks, i: nat)
    requires i < |bs| && !bs[i].used
    ensures forall j :: 0 <= j < |bs| && bs[j].used ==> bs[j] in Coalesced(bs, i)
  {
    hide Joined;
    var r := bs;
    if i + 1 < |bs| && !bs[i + 1].used {
      JoinedMembers(bs, i);
      JoinedShape(bs, i);
      r := Joined(bs, i);
    }
    if i > 0 && !bs[i - 1].used {
      JoinedMembers(r, i - 1);
    }
  }

  // ----- the used blocks tell all -----

  ghost function Used(bs: Blocks): (r: set<Block>) {
    set b | b in bs && b.used
  }

  /** No two blocks begin alike. */
  lemma OneAt(bs: Blocks, top: int, hdr: nat, a: Block, b: Block)
    requires Tiling(bs, top, hdr) && hdr > 0 && a in bs && b in bs && a.at == b.at
    ensures a == b
  {
    hide Tiling;
    var i :| 0 <= i < |bs| && bs[i] == a;
    var j :| 0 <= j < |bs| && bs[j] == b;
    OffsetOrder(bs, top, hdr, i, j);
  }

  lemma UsedReplaced(bs: Blocks, top: int, hdr: nat, f: nat, l: nat, mid: Blocks)
    requires Tiling(bs, top, hdr) && hdr > 0 && f <= l <= |bs|
    ensures Used(bs[..f] + mid + bs[l..]) == Used(bs) - Used(bs[f..l]) + Used(mid)
  {
    hide Tiling;
    var r := bs[..f] + mid + bs[l..];
    assert bs == bs[..f] + bs[f..l] + bs[l..];
    forall b | b in bs[..f] || b in bs[l..]
      ensures b !in bs[f..l]
    {
      if b in bs[f..l] {
        var i :| f <= i < l && bs[i] == b;
        var j :| (0 <= j < f || l <= j < |bs|) && bs[j] == b;
        OffsetOrder(bs, top, hdr, i, j);
      }
    }
  }

  lemma UsedFew(a: Block, b: Block)
    ensures Used([a]) == (if a.used then {a} else {})
    ensures Used([a, b]) == Used([a]) + Used([b])
  {
    assert a in [a] && a in [a, b] && b in [a, b];
  }

  lemma UsedSame(bs: Blocks, i: nat)
    requires i < |bs| && bs[i].used
    ensures Used(bs) == Used(bs) - {bs[i]} + {bs[i]}
  {
    assert bs[i] in Used(bs);
  }

  /** A free block is given out: one more is used. */
  lemma UsedGiven(bs: Blocks, top: int, hdr: nat, i: nat, mid: Blocks)
    requires Tiling(bs, top, hdr) && hdr > 0 && i < |bs| && !bs[i].used
    requires 1 <= |mid| <= 2 && mid[0].used && (|mid| == 2 ==> !mid[1].used)
    ensures Used(bs[..i] + mid + bs[i + 1..]) == Used(bs) + {mid[0]}
  {
    UsedReplaced(bs, top, hdr, i, i + 1, mid);
    assert bs[i..i + 1] == [bs[i]];
    UsedFew(bs[i], bs[i]);
    UsedFew(mid[0], mid[|mid| - 1]);
    assert mid == if |mid| == 1 then [mid[0]] else [mid[0], mid[1]];
  }

  /** A used block is replaced, or freed, along with free neighbours. */
  lemma UsedChanged(bs: Blocks, top: int, hdr: nat, i: nat, f: nat, l: nat, mid: Blocks)
    requires Tiling(bs, top, hdr) && hdr > 0 && f <= i <= l < |bs| && bs[i].used
    requires forall k :: f <= k <= l && k != i ==> !bs[k].used
    ensures Used(bs[..f] + mid + bs[l + 1..]) == Used(bs) - {bs[i]} + Used(mid)
  {
    UsedReplaced(bs, top, hdr, f, l + 1, mid);
    var part := bs[f..l + 1];
    assert part[i - f] == bs[i];
    assert forall b :: b in part && b.used ==> b == bs[i] by {
      forall b | b in part && b.used
        ensures b == bs[i]
      {
        var k :| 0 <= k < |part| && part[k] == b;
        assert part[k] == bs[k + f];
      }
    }
    assert Used(part) == {bs[i]};
  }

  lemma UsedFreed(bs: Blocks, top: int, hdr: nat, i: nat)
    requires Tiling(bs, top, hdr) && hdr > 0 && i < |bs| && bs[i].used
    ensures Used(Coalesced(Released(bs, i), i)) == Used(bs) - {bs[i]}
  {
    hide Tiling, Coalesced, Released, Used;
    FreedIs(bs, i);
    var f := if i > 0 && !bs[i - 1].used then i - 1 else i;
    var l := if i + 1 < |bs| && !bs[i + 1].used then i + 1 else i;
    var joined := Block(bs[f].at, bs[l].end, false);
    UsedChanged(bs, top, hdr, i, f, l, [joined]);
    UsedFew(joined, joined);
  }

  /** Two tilings without free neighbours are the same if their used blocks are. */
  lemma {:induction false} SameUsedSame(bs: Blocks, bs': Blocks, top: int, hdr: nat, k: nat)
    requires Tiling(bs, top, hdr) && Tiling(bs', top, hdr) && hdr > 0 && NoTwoFree(bs) && NoTwoFree(bs')
    requires Used(bs) == Used(bs') && k <= |bs|
    ensures k <= |bs'| && bs[..k] == bs'[..k]
  {
    if k > 0 {
      SameUsedSame(bs, bs', top, hdr, k - 1);
      hide Tiling, NoTwoFree, Used;
      SameNext(bs, bs', top, hdr, k - 1);
      assert bs[..k] == bs[..k - 1] + [bs[k - 1]] && bs'[..k] == bs'[..k - 1] + [bs'[k - 1]];
    }
  }

  lemma SameNext(bs: Blocks, bs': Blocks, top: int, hdr: nat, k: nat)
    requires Tiling(bs, top, hdr) && Tiling(bs', top, hdr) && hdr > 0 && NoTwoFree(bs) && NoTwoFree(bs')
    requires Used(bs) == Used(bs') && k < |bs| && k <= |bs'| && bs[..k] == bs'[..k]
    ensures k < |bs'| && bs[k] == bs'[k]
  {
    WithinHeap(bs, top, hdr, k);
    if k > 0 {
      assert bs[k - 1] == bs[..k][k - 1] == bs'[k - 1];
      WithinHeap(bs', top, hdr, k - 1);
      WithinHeap(bs, top, hdr, k - 1);
    }
    assert k < |bs'| && bs[k].at == bs'[k].at;
    if bs[k].used {
      UsedThere(bs, bs', top, hdr, k);
    } else if bs'[k].used {
      UsedThere(bs', bs, top, hdr, k);
    } else {
      NotLonger(bs, bs', top, hdr, k);
      NotLonger(bs', bs, top, hdr, k);
    }
  }

  lemma UsedThere(bs: Blocks, bs': Blocks, top: int, hdr: nat, k: nat)
    requires Tiling(bs, top, hdr) && Tiling(bs', top, hdr) && hdr > 0 && Used(bs) == Used(bs')
    requires k < |bs| && k < |bs'| && bs[k].used && bs[k].at == bs'[k].at
    ensures bs[k] == bs'[k]
  {
    hide Tiling;
    assert bs[k] in Used(bs);
    OneAt(bs', top, hdr, bs[k], bs'[k]);
  }

  lemma NotLonger(bs: Blocks, bs': Blocks, top: int, hdr: nat, k: nat)
    requires Tiling(bs, top, hdr) && Tiling(bs', top, hdr) && hdr > 0 && NoTwoFree(bs) && Used(bs) == Used(bs')
    requires k < |bs| && k < |bs'| && !bs[k].used && !bs'[k].used && bs[k].at == bs'[k].at
    ensures bs'[k].end <= bs[k].end
  {
    WithinHeap(bs, top, hdr, k);
    WithinHeap(bs', top, hdr, k);
    if k + 1 < |bs| {
      var next := bs[k + 1];
      assert next.at == bs[k].end && next.used && next in Used(bs);
      var j :| 0 <= j < |bs'| && bs'[j] == next;
      WithinHeap(bs', top, hdr, j);
      hide Tiling;
      Disjoint(bs', top, hdr, j, k);
    }
  }

  lemma UsedDetermines(bs: Blocks, bs': Blocks, top: int, hdr: nat)
    requires Tiling(bs, top, hdr) && Tiling(bs', top, hdr) && hdr > 0 && NoTwoFree(bs) && NoTwoFree(bs')
    requires Used(bs) == Used(bs')
    ensures bs == bs'
  {
    hide Tiling, NoTwoFree, Used;
    SameUsedSame(bs, bs', top, hdr, |bs|);
    SameUsedSame(bs', bs, top, hdr, |bs'|);
    assert bs[..|bs|] == bs && bs'[..|bs'|] == bs';
  }
}
