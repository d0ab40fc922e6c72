/**
 The kernel's small-memory heap (rt_malloc, rt_free, rt_realloc) on one stretch of bytes.

 Block headers lie in the heap itself: writing one overwrites the bytes it lies on.  Addresses are
 offsets from the start of the heap.
 */
module SmallHeap {
  import opened Lists
  import opened HeapBlocks

  const HEADER: int := 12            // SIZEOF_STRUCT_MEM
  const MIN_SIZE: int := 12
  const MIN_SIZE_ALIGNED: int := 12

  datatype Header = Header(used: bool, next: int, prev: int)

  function AlignUp(size: nat): (n: nat) {
    (size + RT_ALIGN_SIZE - 1) / RT_ALIGN_SIZE * RT_ALIGN_SIZE
  }

  /** The headers in memory say what the blocks are; the end marker's `prev` is never kept up. */
  ghost predicate Mirror(headers: map<int, Header>, bs: Blocks, top: int) {
    && (forall i :: 0 <= i < |bs| ==> bs[i].at in headers && headers[bs[i].at] == HeaderOf(bs, i))
    && top in headers && headers[top].used && headers[top].next == top
  }

  ghost function HeaderOf(bs: Blocks, i: nat): (h: Header)
    requires i < |bs|
  {
    Header(bs[i].used, bs[i].end, if i == 0 then 0 else bs[i - 1].at)
  }

  /** The header of block `k` of a run that follows a block at `prev`. */
  ghost function MidHeader(mid: Blocks, k: nat, prev: int): (h: Header)
    requires k < |mid|
  {
    Header(mid[k].used, mid[k].end, if k == 0 then prev else mid[k - 1].at)
  }

  /** New headers for a replaced run of blocks, and a new back link behind it, make a new mirror. */
  lemma MirrorReplace(headers: map<int, Header>, bs: Blocks, top: int, i: nat, j: nat, mid: Blocks,
                      headers': map<int, Header>)
    requires Tiling(bs, top, HEADER) && Mirror(headers, bs, top) && i < j <= |bs|
    requires |mid| >= 1 && mid[0].at == bs[i].at
    requires forall k :: 0 <= k < |mid| ==>
               mid[k].at in headers' && headers'[mid[k].at] == MidHeader(mid, k, HeaderOf(bs, i).prev)
    requires j < |bs| ==>
               bs[j].at in headers' && headers'[bs[j].at] == headers[bs[j].at].(prev := mid[|mid| - 1].at)
    requires top in headers' && headers'[top].used && headers'[top].next == top
    requires forall x :: x in headers && (x < bs[i].at || x > bs[j - 1].end) ==>
                           x in headers' && headers'[x] == headers[x]
    ensures Mirror(headers', Replace(bs, i, j, mid), top)
  {
    hide HeaderOf, Tiling, Replace;
    forall k | 0 <= k < |Replace(bs, i, j, mid)|
      ensures var r := Replace(bs, i, j, mid);
              r[k].at in headers' && headers'[r[k].at] == HeaderOf(r, k)
    {
      ReplacedHeader(bs, i, j, mid, k);
      if k < i {
        OffsetOrder(bs, top, HEADER, k, i);
      } else if k < i + |mid| {
        var m := k - i;
        assert mid[m].at in headers';
      } else {
        var m := k - i - |mid| + j;
        if m > j { InOrderAfter(bs, top, j, m); }
      }
    }
  }

  lemma InOrderAfter(bs: Blocks, top: int, j: nat, m: nat)
    requires Tiling(bs, top, HEADER) && 0 < j < m < |bs|
    ensures bs[m].at > bs[j - 1].end
  {
    OffsetOrder(bs, top, HEADER, j, m);
  }

  lemma ReplacedHeader(bs: Blocks, i: nat, j: nat, mid: Blocks, k: nat)
    requires i < j <= |bs| && |mid| >= 1 && mid[0].at == bs[i].at && k < |Replace(bs, i, j, mid)|
    ensures var r := Replace(bs, i, j, mid);
            var m := k - i - |mid| + j;
            && (k < i ==> r[k] == bs[k] && HeaderOf(r, k) == HeaderOf(bs, k))
            && (i <= k < i + |mid| ==>
                  r[k] == mid[k - i] && HeaderOf(r, k) == MidHeader(mid, k - i, HeaderOf(bs, i).prev))
            && (k == i + |mid| ==> r[k] == bs[j] && HeaderOf(r, k) == HeaderOf(bs, j).(prev := mid[|mid| - 1].at))
            && (k > i + |mid| ==> r[k] == bs[m] && HeaderOf(r, k) == HeaderOf(bs, m))
  {
    Replaced(bs, i, j, mid);
    hide Replace;
  }

  // ----- the header updates -----

  function Cut(b: Block, ptr2: int): (r: Blocks) {
    [Block(b.at, ptr2, true), Block(ptr2, b.end, false)]
  }

  ghost function CutHeaders(headers: map<int, Header>, at: int, ptr2: int, top: int): (h: map<int, Header>)
    requires at in headers && headers[at].next in headers
  {
    var mem := headers[at];
    var h := headers[ptr2 := Header(false, mem.next, at)][at := mem.(next := ptr2, used := true)];
    if mem.next == top then h else h[mem.next := h[mem.next].(prev := ptr2)]
  }

  lemma SplitMirror(headers: map<int, Header>, bs: Blocks, top: int, i: nat, ptr2: int)
    requires Tiling(bs, top, HEADER) && Mirror(headers, bs, top) && i < |bs|
    requires bs[i].at < ptr2 < bs[i].end <= top && (bs[i].end == top <==> i == |bs| - 1)
    requires i + 1 < |bs| ==> bs[i + 1].at == bs[i].end && bs[i].end in headers
    requires bs[i].at in headers && headers[bs[i].at] == HeaderOf(bs, i)
    requires top in headers && headers[top].used && headers[top].next == top
    ensures Mirror(CutHeaders(headers, bs[i].at, ptr2, top), Replace(bs, i, i + 1, Cut(bs[i], ptr2)), top)
  {
    hide Tiling, Mirror;
    MirrorReplace(headers, bs, top, i, i + 1, Cut(bs[i], ptr2), CutHeaders(headers, bs[i].at, ptr2, top));
  }

  lemma SplitLinked(headers: map<int, Header>, bs: Blocks, top: int, i: nat, ptr2: int)
    requires Tiling(bs, top, HEADER) && Mirror(headers, bs, top) && i < |bs|
    requires bs[i].at + HEADER <= ptr2 && ptr2 + HEADER <= bs[i].end && ptr2 % RT_ALIGN_SIZE == 0
    ensures 0 <= bs[i].at && bs[i].at in headers && headers[bs[i].at].next == bs[i].end <= top
    ensures bs[i].end in headers
    ensures Tiling(Replace(bs, i, i + 1, Cut(bs[i], ptr2)), top, HEADER)
    ensures Mirror(CutHeaders(headers, bs[i].at, ptr2, top), Replace(bs, i, i + 1, Cut(bs[i], ptr2)), top)
  {
    hide CutHeaders;
    WithinHeap(bs, top, HEADER, i);
    assert i + 1 < |bs| ==> bs[i + 1].at == bs[i].end;
    assert Aligned(bs[i], HEADER);
    ReplaceTiling(bs, top, HEADER, i, i + 1, Cut(bs[i], ptr2));
    SplitMirror(headers, bs, top, i, ptr2);
  }

  lemma MarkLinked(headers: map<int, Header>, bs: Blocks, top: int, i: nat, used: bool)
    requires Tiling(bs, top, HEADER) && Mirror(headers, bs, top) && i < |bs|
    ensures 0 <= bs[i].at && bs[i].at in headers && bs[i].at + HEADER <= top
    ensures Tiling(Replace(bs, i, i + 1, [bs[i].(used := used)]), top, HEADER)
    ensures Mirror(headers[bs[i].at := headers[bs[i].at].(used := used)],
                   Replace(bs, i, i + 1, [bs[i].(used := used)]), top)
  {
    var b, mid := bs[i], [bs[i].(used := used)];
    WithinHeap(bs, top, HEADER, i);
    assert Aligned(b, HEADER);
    assert b.end != top ==> bs[i + 1].at == b.end;
    ReplaceTiling(bs, top, HEADER, i, i + 1, mid);
    hide Tiling;
    MirrorReplace(headers, bs, top, i, i + 1, mid, headers[b.at := headers[b.at].(used := used)]);
  }

  // ----- what allocation and release do to the blocks -----

  ghost predicate Fits(b: Block, size: nat) {
    !b.used && b.end - b.at - HEADER >= size
  }

  /** The block `i` given to a request: split if the rest can hold a block of its own. */
  ghost function Allotted(bs: Blocks, i: nat, size: nat): (r: Blocks)
    requires i < |bs| && Fits(bs[i], size)
  {
    Replace(bs, i, i + 1, Halves(bs[i], size))
  }

  ghost function Halves(b: Block, size: nat): (r: Blocks)
    requires Fits(b, size)
  {
    if b.end - b.at - HEADER >= size + HEADER + MIN_SIZE_ALIGNED then
      [Block(b.at, b.at + HEADER + size, true), Block(b.at + HEADER + size, b.end, false)]
    else [b.(used := true)]
  }

  /** The block is split exactly if the rest can hold a smallest block. */
  lemma AllottedIs(bs: Blocks, i: nat, size: nat)
    requires i < |bs| && Fits(bs[i], size)
    ensures var b := bs[i];
            var p := b.at + HEADER;
            Allotted(bs, i, size) ==
            if p + size + HEADER + MIN_SIZE_ALIGNED <= b.end
            then bs[..i] + [Block(b.at, p + size, true), Block(p + size, b.end, false)] + bs[i + 1..]
            else bs[..i] + [Block(b.at, b.end, true)] + bs[i + 1..]
    ensures var r := Allotted(bs, i, size);
            i < |r| && size <= r[i].end - (bs[i].at + HEADER) < size + HEADER + MIN_SIZE_ALIGNED
  {
  }

  lemma AllottedGood(bs: Blocks, top: int, i: nat, size: nat)
    requires Tiling(bs, top, HEADER) && NoTwoFree(bs)
    requires i < |bs| && Fits(bs[i], size) && size % RT_ALIGN_SIZE == 0
    ensures Tiling(Allotted(bs, i, size), top, HEADER) && NoTwoFree(Allotted(bs, i, size))
  {
    hide Replace, Halves, Aligned, NoTwoFree;
    assert Aligned(bs[i], HEADER);
    var mid := Halves(bs[i], size);
    HalvesTile(bs[i], size);
    ReplaceTiling(bs, top, HEADER, i, i + 1, mid);
    UsedFirst(bs, i, mid);
  }

  lemma HalvesTile(b: Block, size: nat)
    requires Aligned(b, HEADER) && Fits(b, size) && size % RT_ALIGN_SIZE == 0
    ensures var mid := Halves(b, size);
            && 1 <= |mid| <= 2 && mid[0].used && mid[0].at == b.at && mid[|mid| - 1].end == b.end
            && AllAligned(mid, HEADER) && Adjacent(mid)
  {
  }

  /** A used block, and at most one free block behind it, in the place of a free one. */
  lemma UsedFirst(bs: Blocks, i: nat, mid: Blocks)
    requires NoTwoFree(bs) && i < |bs| && !bs[i].used
    requires 1 <= |mid| <= 2 && mid[0].used
    ensures NoTwoFree(Replace(bs, i, i + 1, mid))
  {
    hide Replace;
    var r, n := Replace(bs, i, i + 1, mid), |mid|;
    Replaced(bs, i, i + 1, mid);
    forall k | 0 <= k < |r| - 1
      ensures r[k].used || r[k + 1].used
    {
      if k < i - 1 {
        assert bs[k].used || bs[k + 1].used;
      } else if k >= i + n - 1 {
        var m := k - n + 1;
        assert r[k + 1] == bs[m + 1] && (bs[m].used || bs[m + 1].used);
      }
    }
  }

  /** Where block `i` is found after block `j` of `bs` has been replaced, which made `r` of `bs`. */
  ghost function NewIndex(bs: Blocks, r: Blocks, i: nat, j: nat): (k: nat)
    requires |bs| <= |r| && i < |bs|
    ensures k < |r|
  {
    if i < j then i else i + |r| - |bs|
  }

  lemma AllottedShape(bs: Blocks, i: nat, size: nat)
    requires i < |bs| && Fits(bs[i], size)
    ensures var r := Allotted(bs, i, size);
            && |r| >= |bs| && (forall k :: 0 <= k < i ==> r[k] == bs[k])
            && r[i].at == bs[i].at && r[i].used && r[i].end - r[i].at - HEADER >= size
            && (forall j :: 0 <= j < |bs| && j != i ==> bs[j] in r)
            && (forall j :: 0 <= j < |bs| && j != i ==> r[NewIndex(bs, r, j, i)] == bs[j])
  {
    var r, mid := Allotted(bs, i, size), Halves(bs[i], size);
    Replaced(bs, i, i + 1, mid);
    hide Replace;
    assert r[i] == mid[0];
    forall j | 0 <= j < |bs| && j != i
      ensures bs[j] in r && r[NewIndex(bs, r, j, i)] == bs[j]
    {
      assert bs[j] == r[if j < i then j else j + |mid| - 1];
    }
  }

  /** Byte `k` belongs to the caller of a used block. */
  ghost predicate HoldsByte(b: Block, k: int) {
    b.used && b.at + HEADER <= k < b.end
  }

  /** `m` bytes at `q` are what they were at `p`. */
  ghost predicate SameText(before: seq<int>, after: seq<int>, q: int, p: int, m: int) {
    && 0 <= m && 0 <= q && q + m <= |after| && 0 <= p && p + m <= |before|
    && after[q..q + m] == before[p..p + m]
  }

  lemma TextMoves(b0: seq<int>, b1: seq<int>, b2: seq<int>, q: int, p: int, m: nat)
    requires 0 <= q && q + m <= |b2| && 0 <= p && p + m <= |b1| == |b0|
    requires b1[p..p + m] == b0[p..p + m] && b2[q..q + m] == b1[p..p + m]
    ensures SameText(b0, b2, q, p, m)
  {
  }

  /** What two steps keep, the first all but moving block `i` to place `i'`, the second all but blocks `i'` and `j`. */
  lemma KeptTwice(was: Blocks, b0: seq<int>, mid: Blocks, b1: seq<int>, now: Blocks, b2: seq<int>, i: int, i': int,
                  j: int)
    requires |b0| == |b1| == |b2|
    requires forall k, x :: 0 <= k < |was| && HoldsByte(was[k], x) && 0 <= x < |b0| ==> b1[x] == b0[x]
    requires forall k :: 0 <= k < |was| && k != i && was[k].used ==>
               exists k' :: 0 <= k' < |mid| && mid[k'] == was[k] && k' != i' && k' != j
    requires forall k :: 0 <= k < |mid| && mid[k].used && k != i' ==> mid[k] in now
    requires forall k, x :: 0 <= k < |mid| && k != i' && k != j && HoldsByte(mid[k], x) && 0 <= x < |b0| ==>
               b2[x] == b1[x]
    ensures forall k :: 0 <= k < |was| && was[k].used && k != i ==> was[k] in now
    ensures forall k, x :: 0 <= k < |was| && k != i && HoldsByte(was[k], x) && 0 <= x < |b0| ==> b2[x] == b0[x]
  {
  }

  /** The bytes a block holds lie clear of the headers around a run of other blocks. */
  lemma ClearOf(bs: Blocks, top: int, lo: nat, hi: nat, j: nat, k: int)
    requires Tiling(bs, top, HEADER) && lo <= hi < |bs| && j < |bs| && (j < lo || j > hi)
    requires bs[j].at + HEADER <= k < bs[j].end
    ensures 0 <= k < top && !(bs[lo].at <= k < bs[hi].end + HEADER)
  {
    WithinHeap(bs, top, HEADER, j);
    if j < lo { InOrder(bs, top, HEADER, j, lo); } else { InOrder(bs, top, HEADER, hi, j); }
  }

  // ----- joining free neighbours -----

  /** Where index `k` has moved to after joining around `i`. */
  ghost function Reindexed(bs: Blocks, i: nat, k: nat): (r: nat)
    requires i < |bs|
  {
    var r := if i + 1 < |bs| && !bs[i + 1].used && k > i then k - 1 else k;
    if i > 0 && !bs[i - 1].used && r > i - 1 then r - 1 else r
  }

  lemma JoinedTotal(bs: Blocks, i: nat)
    requires i + 1 < |bs| && !bs[i].used && !bs[i + 1].used
    ensures UsedTotal(Joined(bs, i)) == UsedTotal(bs)
  {
    hide UsedTotal, Replace;
    var b := Block(bs[i].at, bs[i + 1].end, false);
    ReplaceUsedTotal(bs, i, i + 2, [b]);
    assert bs[i..i + 2] == [bs[i], bs[i + 1]];
    UsedTotalFew(bs[i], bs[i + 1]);
    UsedTotalFew(bs[i + 1], bs[i]);
    UsedTotalFew(b, b);
  }

  ghost function JoinedHeaders(headers: map<int, Header>, at: int): (h: map<int, Header>)
    requires at in headers && headers[at].next in headers && headers[headers[at].next].next in headers
  {
    var next := headers[headers[at].next].next;
    var h := headers[at := headers[at].(next := next)];
    h[next := h[next].(prev := at)]
  }

  lemma JoinMirror(headers: map<int, Header>, bs: Blocks, top: int, i: nat)
    requires Tiling(bs, top, HEADER) && Mirror(headers, bs, top) && i + 1 < |bs|
    requires !bs[i].used && !bs[i + 1].used
    requires bs[i].at < bs[i].end == bs[i + 1].at < bs[i + 1].end <= top && (bs[i + 1].end == top <==> i + 2 == |bs|)
    requires i + 2 < |bs| ==> bs[i + 2].at == bs[i + 1].end
    requires bs[i].at in headers && headers[bs[i].at] == HeaderOf(bs, i)
    requires bs[i + 1].at in headers && headers[bs[i + 1].at] == HeaderOf(bs, i + 1)
    requires bs[i + 1].end in headers
    requires top in headers && headers[top].used && headers[top].next == top
    ensures Mirror(JoinedHeaders(headers, bs[i].at), Joined(bs, i), top)
  {
    hide Tiling, Mirror, Replace;
    MirrorReplace(headers, bs, top, i, i + 2, [Block(bs[i].at, bs[i + 1].end, false)],
                  JoinedHeaders(headers, bs[i].at));
  }

  /** What the headers around block `i` say. */
  lemma HeaderFacts(headers: map<int, Header>, bs: Blocks, top: int, i: nat)
    requires Tiling(bs, top, HEADER) && Mirror(headers, bs, top) && i < |bs|
    ensures bs[i].at in headers && headers[bs[i].at] == HeaderOf(bs, i)
    ensures 0 <= bs[i].at && bs[i].at + HEADER <= bs[i].end <= top && (bs[i].end == top <==> i == |bs| - 1)
    ensures bs[i].end == Offset(bs, top, i + 1) && bs[i].end in headers
    ensures top in headers && headers[top].used && headers[top].next == top
    ensures bs[0].at == 0
  {
    WithinHeap(bs, top, HEADER, i);
  }

  lemma JoinLinked(headers: map<int, Header>, bs: Blocks, top: int, i: nat)
    requires Tiling(bs, top, HEADER) && Mirror(headers, bs, top) && i + 1 < |bs|
    requires !bs[i].used && !bs[i + 1].used
    ensures bs[i].at in headers && headers[bs[i].at].next == bs[i + 1].at && bs[i + 1].at in headers
    ensures headers[bs[i + 1].at].next == bs[i + 1].end && bs[i + 1].end in headers
    ensures Tiling(Joined(bs, i), top, HEADER) && Mirror(JoinedHeaders(headers, bs[i].at), Joined(bs, i), top)
  {
    hide Tiling, Mirror, JoinedHeaders, Replace;
    HeaderFacts(headers, bs, top, i);
    HeaderFacts(headers, bs, top, i + 1);
    BlockAligned(bs, top, i);
    BlockAligned(bs, top, i + 1);
    ReplaceTiling(bs, top, HEADER, i, i + 2, [Block(bs[i].at, bs[i + 1].end, false)]);
    JoinMirror(headers, bs, top, i);
  }

  class Heap {
    const memSize: nat
    var headers: map<int, Header>
    var data: array<int>
    var lfree: int
    var usedMem: int
    var maxMem: int

    ghost var blocks: Blocks
    ghost var lf: nat

    ghost function Top(): (top: int) {
      memSize + HEADER
    }

    /** The blocks tile the heap and the headers describe them. */
    ghost predicate Linked()
      reads this
    {
      && memSize >= MIN_SIZE_ALIGNED && memSize % RT_ALIGN_SIZE == 0
      && data.Length == Top() + HEADER
      && Tiling(blocks, Top(), HEADER) && Mirror(headers, blocks, Top())
    }

    /** Everything but the hint where to start looking. */
    ghost predicate Sound()
      reads this
    {
      Linked() && NoTwoFree(blocks) && usedMem == UsedTotal(blocks) <= maxMem
    }

    /** `lfree` is a free block or the end marker. */
    ghost predicate Valid()
      reads this
    {
      Sound() && LfreeOk()
    }

    /** Writes a header, and with it the bytes it lies on. */
    method PutHeader(at: int, h: Header)
      requires 0 <= at && at + HEADER <= data.Length
      modifies this`headers, data
      ensures headers == old(headers)[at := h]
      ensures forall k :: 0 <= k < data.Length && !(at <= k < at + HEADER) ==> data[k] == old(data[k])
    {
      headers := headers[at := h];
      forall k | at <= k < at + HEADER {
        data[k] := 0;
      }
    }

    /** rt_system_heap_init, for a stretch that holds a smallest block between two headers. */
    constructor (beginAlign: nat, endAlign: nat)
      requires beginAlign % RT_ALIGN_SIZE == 0 && endAlign % RT_ALIGN_SIZE == 0
      requires endAlign - beginAlign >= 2 * HEADER + MIN_SIZE_ALIGNED
      ensures Valid() && LfreeLowest() && fresh(data)
      ensures memSize == endAlign - beginAlign - 2 * HEADER && usedMem == 0
      ensures blocks == [Block(0, memSize + HEADER, false)]
    {
      memSize := endAlign - beginAlign - 2 * HEADER;
      var top := endAlign - beginAlign - HEADER;
      data := new int[endAlign - beginAlign];
      headers := map[0 := Header(false, top, 0), top := Header(true, top, top)];
      lfree, usedMem, maxMem := 0, 0, 0;
      blocks, lf := [Block(0, top, false)], 0;
      new;
      UsedTotalFew(blocks[0], blocks[0]);
    }

    /** Marks a block used and cuts it at `ptr2`, leaving a free block behind the cut. */
    method SplitBlock(ghost i: nat, ptr: int, ptr2: int)
      requires Linked() && i < |blocks| && ptr == blocks[i].at
      requires ptr + HEADER <= ptr2 && ptr2 + HEADER <= blocks[i].end && ptr2 % RT_ALIGN_SIZE == 0
      modifies this`headers, this`blocks, data
      ensures Linked()
      ensures blocks == Replace(old(blocks), i, i + 1, Cut(old(blocks[i]), ptr2))
      ensures SameOutside(ptr2, old(blocks[i].end) + HEADER, ptr, ptr + HEADER)
    {
      hide Tiling, Mirror, Replace;
      SplitLinked(headers, blocks, Top(), i, ptr2);
      blocks := Replace(blocks, i, i + 1, Cut(blocks[i], ptr2));
      var mem := headers[ptr];
      PutHeader(ptr2, Header(false, mem.next, ptr));
      PutHeader(ptr, mem.(next := ptr2, used := true));
      if mem.next != memSize + HEADER {
        PutHeader(mem.next, headers[mem.next].(prev := ptr2));
      }
    }

    /** No byte changes but those of the two stretches. */
    twostate predicate SameOutside(lo: int, hi: int, lo': int, hi': int)
      reads this, data
    {
      && data == old(data)
      && forall k :: 0 <= k < data.Length && !(lo <= k < hi) && !(lo' <= k < hi') ==> data[k] == old(data[k])
    }

    /** Sets the used flag of a block. */
    method MarkBlock(ghost i: nat, ptr: int, used: bool)
      requires Linked() && i < |blocks| && ptr == blocks[i].at
      modifies this`headers, this`blocks, data
      ensures Linked()
      ensures blocks == Replace(old(blocks), i, i + 1, [old(blocks[i]).(used := used)])
      ensures SameOutside(ptr, ptr + HEADER, ptr, ptr)
    {
      hide Tiling, Mirror, Replace;
      MarkLinked(headers, blocks, Top(), i, used);
      blocks := Replace(blocks, i, i + 1, [blocks[i].(used := used)]);
      PutHeader(ptr, headers[ptr].(used := used));
    }

    /** The splitting or filling of the block that rt_malloc has found. */
    method TakeBlock(ghost i: nat, ptr: int, size: nat)
      requires Sound() && i < |blocks| && ptr == blocks[i].at
      requires Fits(blocks[i], size) && size % RT_ALIGN_SIZE == 0
      modifies this`headers, this`blocks, this`usedMem, this`maxMem, data
      ensures Sound() && blocks == Allotted(old(blocks), i, size)
      ensures var end, p := old(blocks)[i].end, ptr + HEADER;
              if p + size + HEADER + MIN_SIZE_ALIGNED <= end then
                && blocks == old(blocks)[..i] + [Block(ptr, p + size, true), Block(p + size, end, false)]
                             + old(blocks)[i + 1..]
                && usedMem == old(usedMem) + HEADER + size
              else
                && blocks == old(blocks)[..i] + [Block(ptr, end, true)] + old(blocks)[i + 1..]
                && usedMem == old(usedMem) + end - ptr
      ensures maxMem == if old(maxMem) < usedMem then usedMem else old(maxMem)
      ensures SameOutside(ptr, old(blocks[i].end) + HEADER, ptr, ptr)
    {
      hide Tiling, Mirror, NoTwoFree, UsedTotal, Replace;
      AllottedIs(blocks, i, size);
      AllottedGood(blocks, Top(), i, size);
      AllottedTotal(blocks, i, size);
      CutAligned(headers, blocks, Top(), i, size);
      var next := headers[ptr].next;
      if next - (ptr + HEADER) >= size + HEADER + MIN_SIZE_ALIGNED {
        SplitBlock(i, ptr, ptr + HEADER + size);
        usedMem := usedMem + size + HEADER;
      } else {
        MarkBlock(i, ptr, true);
        usedMem := usedMem + next - ptr;
      }
      if maxMem < usedMem { maxMem := usedMem; }
    }

    ghost predicate LfreeOk()
      reads this
    {
      lf <= |blocks| && lfree == Offset(blocks, Top(), lf) && (lf < |blocks| ==> !blocks[lf].used)
    }

    /** `lfree` is the lowest free block, or the end marker if there is none. */
    ghost predicate LfreeLowest()
      reads this
    {
      forall k :: 0 <= k < lf && k < |blocks| ==> blocks[k].used
    }

    /** Half of plug_holes: joins the free block at `ptr` with the free block behind it. */
    method Join(ghost i: nat, ptr: int)
      requires Linked() && LfreeOk() && i + 1 < |blocks| && ptr == blocks[i].at
      requires !blocks[i].used && !blocks[i + 1].used
      modifies this`headers, this`blocks, this`lfree, this`lf, data
      ensures Linked() && LfreeOk() && blocks == Joined(old(blocks), i)
      ensures lf == if old(lf) > i then old(lf) - 1 else old(lf)
      ensures old(LfreeLowest()) ==> LfreeLowest()
      ensures SameOutside(ptr, ptr + HEADER, old(blocks[i + 1].end), old(blocks[i + 1].end) + HEADER)
    {
      hide Tiling, Mirror, Replace, Joined;
      JoinLinked(headers, blocks, Top(), i);
      HeaderFacts(headers, blocks, Top(), i);
      HeaderFacts(headers, blocks, Top(), i + 1);
      JoinedShape(blocks, i);
      if lf < |blocks| { OffsetOrder(blocks, Top(), HEADER, lf, i + 1); }
      var nmem := headers[ptr].next;
      if lfree == nmem { lfree := ptr; }
      lf := if lf > i then lf - 1 else lf;
      blocks := Joined(blocks, i);
      var next := headers[nmem].next;
      PutHeader(ptr, headers[ptr].(next := next));
      PutHeader(next, headers[next].(prev := ptr));
    }

    method PlugHoles(ghost i: nat, mem: int)
      requires Linked() && LfreeOk() && i < |blocks| && mem == blocks[i].at && !blocks[i].used
      modifies this`headers, this`blocks, this`lfree, this`lf, data
      ensures Linked() && LfreeOk() && blocks == Coalesced(old(blocks), i)
      ensures lf == Reindexed(old(blocks), i, old(lf))
      ensures UsedTotal(blocks) == UsedTotal(old(blocks))
      ensures old(LfreeLowest()) ==> LfreeLowest()
      ensures SameOutside(old(blocks)[First(old(blocks), i)].at, old(blocks)[Last(old(blocks), i)].end + HEADER, 0, 0)
    {
      hide Tiling, Mirror, Joined, UsedTotal;
      ghost var was := blocks;
      HeaderFacts(headers, blocks, Top(), i);
      if i + 1 < |was| {
        HeaderFacts(headers, blocks, Top(), i + 1);
        JoinedShape(was, i);
      }
      var nmem := headers[mem].next;
      if mem != nmem && !headers[nmem].used && nmem != memSize + HEADER {
        JoinedTotal(blocks, i);
        Join(i, mem);
      }
      HeaderFacts(headers, blocks, Top(), i);
      if i > 0 { HeaderFacts(headers, blocks, Top(), i - 1); }
      var pmem := headers[mem].prev;
      if pmem != mem && !headers[pmem].used {
        JoinedTotal(blocks, i - 1);
        Join(i - 1, pmem);
      }
    }

    /** Used blocks other than number `except` stay where they are, with what they hold. */
    twostate predicate Kept(except: int)
      reads this, data
    {
      && data == old(data)
      && (forall i :: 0 <= i < |old(blocks)| && old(blocks)[i].used && i != except ==> old(blocks)[i] in blocks)
      && (forall i, k ::
            0 <= i < |old(blocks)| && i != except && HoldsByte(old(blocks)[i], k) && 0 <= k < data.Length ==>
              data[k] == old(data[k]))
    }

    /** The search loop of rt_malloc, from `lfree` up to a fixed distance from the end. */
    method FindFit(size: nat) returns (found: bool, ptr: int, ghost i: nat)
      requires Valid() && size <= memSize
      ensures found ==> lf <= i < |blocks| && ptr == blocks[i].at < memSize - size && Fits(blocks[i], size)
      ensures found ==> forall k :: lf <= k < i ==> !Fits(blocks[k], size)
      ensures !found ==> forall k :: lf <= k < |blocks| && blocks[k].at < memSize - size ==> !Fits(blocks[k], size)
    {
      hide Tiling, Mirror, NoTwoFree, UsedTotal;
      ptr, i := lfree, lf;
      while ptr < memSize - size
        invariant lf <= i <= |blocks| && ptr == Offset(blocks, Top(), i)
        invariant forall k :: lf <= k < i ==> !Fits(blocks[k], size)
        decreases |blocks| - i
      {
        HeaderFacts(headers, blocks, Top(), i);
        var mem := headers[ptr];
        if !mem.used && mem.next - (ptr + HEADER) >= size {
          return true, ptr, i;
        }
        ptr, i := mem.next, i + 1;
      }
      found := false;
      forall k | i <= k < |blocks|
        ensures blocks[k].at >= memSize - size
      {
        OffsetOrder(blocks, Top(), HEADER, i, k);
      }
    }

    /** After `lfree` has been given away: on to the next free block, or to the end. */
    method AdvanceLfree()
      requires Sound() && lf < |blocks| && lfree == blocks[lf].at
      modifies this`lfree, this`lf
      ensures Valid() && lf >= old(lf)
      ensures forall k :: old(lf) <= k < lf ==> blocks[k].used
    {
      hide Tiling, Mirror, NoTwoFree, UsedTotal;
      HeaderFacts(headers, blocks, Top(), lf);
      while headers[lfree].used && lfree != memSize + HEADER
        invariant old(lf) <= lf <= |blocks| && lfree == Offset(blocks, Top(), lf) && lfree in headers
        invariant forall k :: old(lf) <= k < lf ==> blocks[k].used
        invariant lf < |blocks| ==> headers[lfree] == HeaderOf(blocks, lf) && lfree < Top()
        decreases |blocks| - lf
      {
        HeaderFacts(headers, blocks, Top(), lf);
        if lf + 1 < |blocks| { HeaderFacts(headers, blocks, Top(), lf + 1); }
        lfree, lf := headers[lfree].next, lf + 1;
      }
    }

    /** Gives block `i` to a request that it has room for, and moves the hint on if it was there. */
    method Give(ghost i: nat, ptr: int, n: nat)
      requires Valid() && lf <= i < |blocks| && ptr == blocks[i].at && Fits(blocks[i], n) && n % RT_ALIGN_SIZE == 0
      modifies this, data
      ensures Valid() && Kept(-1) && blocks == Allotted(old(blocks), i, n)
      ensures var end, p := old(blocks)[i].end, ptr + HEADER;
              if p + n + HEADER + MIN_SIZE_ALIGNED <= end then
                && blocks == old(blocks)[..i] + [Block(ptr, p + n, true), Block(p + n, end, false)]
                             + old(blocks)[i + 1..]
                && usedMem == old(usedMem) + HEADER + n
              else
                && blocks == old(blocks)[..i] + [Block(ptr, end, true)] + old(blocks)[i + 1..]
                && usedMem == old(usedMem) + end - ptr
      ensures maxMem == if old(maxMem) < usedMem then usedMem else old(maxMem)
      ensures old(LfreeLowest()) ==> LfreeLowest()
    {
      hide Tiling, Mirror, NoTwoFree, UsedTotal, Allotted;
      AllottedShape(blocks, i, n);
      TakeBlock(i, ptr, n);
      forall j, k | 0 <= j < |old(blocks)| && j != i && old(blocks)[j].at + HEADER <= k < old(blocks)[j].end
        ensures 0 <= k < data.Length && data[k] == old(data[k])
      {
        ClearOf(old(blocks), Top(), i, i, j, k);
      }
      if lf < i { OffsetOrder(old(blocks), Top(), HEADER, lf, i); }
      if ptr == lfree {
        AdvanceLfree();
      }
    }

    method Malloc(size: nat) returns (p: Option<int>, ghost i: nat)
      requires Valid()
      modifies this, data
      ensures Valid() && Kept(-1)
      ensures p.None? <==> Refused(old(blocks), old(lf), memSize, size)
      ensures p.None? ==> blocks == old(blocks) && lfree == old(lfree) && lf == old(lf) && usedMem == old(usedMem)
      ensures p.Some? ==> FirstFit(old(blocks), old(lf), Padded(size), i)
      ensures p.Some? ==> blocks == Allotted(old(blocks), i, Padded(size)) && p.value == old(blocks)[i].at + HEADER
      ensures p.Some? ==>
                && !old(blocks)[i].used && p.value + Padded(size) <= old(blocks)[i].end
                && forall k :: old(lf) <= k < i && !old(blocks)[k].used ==>
                     old(blocks)[k].at + HEADER + Padded(size) > old(blocks)[k].end
      ensures p.Some? ==>
                var end, n := old(blocks)[i].end, Padded(size);
                if p.value + n + HEADER + MIN_SIZE_ALIGNED <= end then
                  && blocks == old(blocks)[..i]
                               + [Block(p.value - HEADER, p.value + n, true), Block(p.value + n, end, false)]
                               + old(blocks)[i + 1..]
                  && usedMem == old(usedMem) + HEADER + n
                else
                  && blocks == old(blocks)[..i] + [Block(p.value - HEADER, end, true)] + old(blocks)[i + 1..]
                  && usedMem == old(usedMem) + HEADER + end - p.value
      ensures maxMem == if old(maxMem) < usedMem then usedMem else old(maxMem)
      ensures old(LfreeLowest()) ==> LfreeLowest()
    {
      hide Tiling, Mirror, NoTwoFree, UsedTotal, Allotted, LfreeLowest, HoldsByte;
      i := 0;
      if size == 0 { return None, i; }
      var n := AlignUp(size);
      if n > memSize { return None, i; }
      if n < MIN_SIZE_ALIGNED { n := MIN_SIZE_ALIGNED; }
      AlignedUp(size);
      var found, ptr;
      found, ptr, i := FindFit(n);
      if !found { return None, i; }
      Give(i, ptr, n);
      p := Some(ptr + HEADER);
    }

    /** Marks a block free, lowers the hint, counts, and joins neighbours. */
    method ReleaseBlock(ghost i: nat, mem: int)
      requires Valid() && i < |blocks| && blocks[i].used && mem == blocks[i].at
      modifies this, data
      ensures Valid() && blocks == Coalesced(Released(old(blocks), i), i)
      ensures usedMem == old(usedMem) - (old(blocks)[i].end - old(blocks)[i].at) && maxMem == old(maxMem)
      ensures old(LfreeLowest()) ==> LfreeLowest()
      ensures SameOutside(old(blocks)[First(old(blocks), i)].at, old(blocks)[Last(old(blocks), i)].end + HEADER,
                          mem, mem + HEADER)
    {
      hide Tiling, Mirror, NoTwoFree, UsedTotal, Coalesced, Replace;
      ghost var was := blocks;
      HeaderFacts(headers, blocks, Top(), i);
      ReleasedShape(was, i);
      ReleasedTotal(was, i);
      ReleasedSparse(was, i);
      if lf < |was| { OffsetOrder(was, Top(), HEADER, i, lf); }
      MarkBlock(i, mem, false);
      if mem < lfree {
        lfree, lf := mem, i;
      }
      HeaderFacts(headers, blocks, Top(), i);
      usedMem := usedMem - (headers[mem].next - mem);
      PlugHoles(i, mem);
    }

    /** rt_free of the block that `p` points behind the header of. */
    method FreeBlock(ghost i: nat, p: int)
      requires Valid() && i < |blocks| && blocks[i].used && p == blocks[i].at + HEADER
      modifies this, data
      ensures Valid() && Kept(i)
      ensures blocks == Coalesced(Released(old(blocks), i), i)
      ensures usedMem == old(usedMem) - (old(blocks)[i].end - old(blocks)[i].at) && maxMem == old(maxMem)
      ensures old(LfreeLowest()) ==> LfreeLowest()
    {
      hide Tiling, Mirror, NoTwoFree, UsedTotal, Coalesced, Replace;
      ghost var was, marked := blocks, Released(blocks, i);
      ReleasedShape(was, i);
      ReleaseBlock(i, p - HEADER);
      CoalescedMembers(marked, i);
      BlockAligned(was, Top(), i);
      forall j | 0 <= j < |was| && was[j].used && j != i
        ensures was[j] in blocks
      {
        assert marked[j] == was[j];
      }
      forall j, k | 0 <= j < |was| && j != i && was[j].used && was[j].at + HEADER <= k < was[j].end
        ensures 0 <= k < data.Length && data[k] == old(data[k])
      {
        ClearOf(was, Top(), First(was, i), Last(was, i), j, k);
        ClearOf(was, Top(), i, i, j, k);
      }
    }

    /** The branch of rt_realloc that cuts the end off a block. */
    method CutBlock(ghost i: nat, ptr: int, n: nat)
      requires Valid() && i < |blocks| && blocks[i].used && ptr == blocks[i].at
      requires n % RT_ALIGN_SIZE == 0 && n + HEADER + MIN_SIZE < blocks[i].end - ptr - HEADER
      modifies this, data
      ensures Valid() && blocks == Shrunk(old(blocks), i, ptr + HEADER + n)
      ensures i + 1 < |blocks| && blocks[i] == Block(ptr, ptr + HEADER + n, true) && !blocks[i + 1].used
      ensures usedMem == old(usedMem) - (old(blocks)[i].end - (ptr + HEADER + n)) && maxMem == old(maxMem)
      ensures old(LfreeLowest()) ==> (LfreeLowest() <==> old(lf) <= i + 1 && old(lf) < |old(blocks)|)
      ensures SameOutside(ptr + HEADER + n, old(blocks)[Last(old(blocks), i)].end + HEADER, ptr, ptr + HEADER)
    {
      hide Tiling, Mirror, NoTwoFree, UsedTotal, Coalesced, Replace;
      ghost var was := blocks;
      HeaderFacts(headers, blocks, Top(), i);
      if i + 1 < |was| { HeaderFacts(headers, blocks, Top(), i + 1); }
      CutAligned(headers, blocks, Top(), i, n);
      ShrunkGood(was, i, ptr + HEADER + n);
      var size := headers[ptr].next - ptr - HEADER;
      usedMem := usedMem - (size - n);
      SplitBlock(i, ptr, ptr + HEADER + n);
      lf := if lf > i then lf + 1 else lf;
      PlugHoles(i + 1, ptr + HEADER + n);
    }

    method Shrink(ghost i: nat, ptr: int, n: nat)
      requires Valid() && i < |blocks| && blocks[i].used && ptr == blocks[i].at
      requires n % RT_ALIGN_SIZE == 0 && n + HEADER + MIN_SIZE < blocks[i].end - ptr - HEADER
      modifies this, data
      ensures Valid() && Kept(i) && Holds(ptr + HEADER, n) && blocks == Shrunk(old(blocks), i, ptr + HEADER + n)
      ensures Carried(ptr + HEADER, ptr + HEADER, n, old(blocks)[i].end - ptr - HEADER)
      ensures usedMem == old(usedMem) - (old(blocks)[i].end - (ptr + HEADER + n)) && maxMem == old(maxMem)
      ensures old(LfreeLowest()) ==> (LfreeLowest() <==> old(lf) <= i + 1 && old(lf) < |old(blocks)|)
    {
      hide Tiling, Mirror, NoTwoFree, UsedTotal, Shrunk;
      ghost var was := blocks;
      HeaderFacts(headers, blocks, Top(), i);
      ShrunkMembers(was, i, ptr + HEADER + n);
      CutBlock(i, ptr, n);
      assert blocks[i] in blocks;
      forall j, k | 0 <= j < |was| && j != i && was[j].used && was[j].at + HEADER <= k < was[j].end
        ensures 0 <= k < data.Length && data[k] == old(data[k])
      {
        ClearOf(was, Top(), i, Last(was, i), j, k);
        ClearOf(was, Top(), i, i, j, k);
      }
    }

    /** There is a used block with room for `n` bytes that begins at `p`, behind its header. */
    ghost predicate Holds(p: int, n: nat)
      reads this
    {
      exists b :: b in blocks && b.used && b.at + HEADER == p && b.end - p >= n
    }

    /** rt_memcpy between two stretches that do not overlap. */
    method CopyBytes(to: int, from: int, n: nat)
      requires 0 <= to && to + n <= data.Length && 0 <= from && from + n <= data.Length
      requires to + n <= from || from + n <= to
      modifies data
      ensures forall k :: to <= k < to + n ==> data[k] == old(data[k - to + from])
      ensures forall k :: 0 <= k < data.Length && !(to <= k < to + n) ==> data[k] == old(data[k])
    {
      for c := 0 to n
        invariant forall k :: to <= k < to + c ==> data[k] == old(data[k - to + from])
        invariant forall k :: 0 <= k < data.Length && !(to <= k < to + c) ==> data[k] == old(data[k])
      {
        data[to + c] := data[from + c];
      }
    }

    /** Copies from block `i` to block `j` and frees block `i`. */
    method Migrate(ghost i: nat, ghost j: nat, p: int, q: int, m: nat)
      requires Valid() && i < |blocks| && j < |blocks| && i != j && blocks[i].used && blocks[j].used
      requires p == blocks[i].at + HEADER && q == blocks[j].at + HEADER
      requires m <= blocks[i].end - p && m <= blocks[j].end - q
      modifies this, data
      ensures Valid() && data == old(data) && blocks == Coalesced(Released(old(blocks), i), i)
      ensures forall k :: 0 <= k < |old(blocks)| && old(blocks)[k].used && k != i ==> old(blocks)[k] in blocks
      ensures forall k, x ::
                0 <= k < |old(blocks)| && k != i && k != j && HoldsByte(old(blocks)[k], x) && 0 <= x < data.Length ==>
                  data[x] == old(data[x])
      ensures 0 <= q && q + m <= data.Length && 0 <= p && p + m <= data.Length
      ensures data[q..q + m] == old(data[p..p + m])
      ensures usedMem == old(usedMem) - (old(blocks)[i].end - old(blocks)[i].at) && maxMem == old(maxMem)
      ensures old(LfreeLowest()) ==> LfreeLowest()
    {
      hide Tiling, Mirror, NoTwoFree, UsedTotal, Coalesced, Released;
      ghost var was := blocks;
      HeaderFacts(headers, blocks, Top(), i);
      HeaderFacts(headers, blocks, Top(), j);
      Disjoint(blocks, Top(), HEADER, i, j);
      CopyBytes(q, p, m);
      assert data[q..q + m] == old(data[p..p + m]);
      forall k, x | 0 <= k < |was| && k != i && k != j && was[k].used && was[k].at + HEADER <= x < was[k].end
        ensures 0 <= x < data.Length && data[x] == old(data[x])
      {
        ClearOf(was, Top(), j, j, k, x);
      }
      FreeBlock(i, p);
    }

    /** A new block `j` for what block `i` holds; block `i` itself is now number `i'`. */
    method Obtain(ghost i: nat, n: nat, ghost p: int, ghost m: nat)
      returns (q: Option<int>, ghost i': nat, ghost j: nat)
      requires Valid() && i < |blocks| && blocks[i].used && p == blocks[i].at + HEADER && m <= blocks[i].end - p
      modifies this, data
      ensures Valid() && Kept(-1)
      ensures q.None? <==> Refused(old(blocks), old(lf), memSize, n)
      ensures q.None? ==> blocks == old(blocks)
      ensures 0 <= p && p + m <= data.Length && data[p..p + m] == old(data[p..p + m])
      ensures q.Some? ==> FirstFit(old(blocks), old(lf), Padded(n), j) && blocks == Allotted(old(blocks), j, Padded(n))
      ensures q.Some? ==> |old(blocks)| <= |blocks|
      ensures q.Some? ==> q.value == old(blocks)[j].at + HEADER && i' == NewIndex(old(blocks), blocks, i, j)
      ensures q.Some? ==> i' < |blocks| && j < |blocks| && i' != j && blocks[i'] == old(blocks)[i]
      ensures q.Some? ==> blocks[j].used && q.value == blocks[j].at + HEADER && n <= blocks[j].end - q.value
      ensures q.None? ==> usedMem == old(usedMem) && maxMem == old(maxMem)
      ensures q.Some? ==>
                var b, room := old(blocks)[j], Padded(n);
                && usedMem == old(usedMem) + (if b.at + HEADER + room + HEADER + MIN_SIZE_ALIGNED <= b.end
                                              then HEADER + room else b.end - b.at)
                && maxMem == if old(maxMem) < usedMem then usedMem else old(maxMem)
      ensures q.Some? ==> forall k :: 0 <= k < |old(blocks)| && k != i && old(blocks)[k].used ==>
                exists k' :: 0 <= k' < |blocks| && blocks[k'] == old(blocks)[k] && k' != i' && k' != j
      ensures old(LfreeLowest()) ==> LfreeLowest()
    {
      hide Tiling, Mirror, NoTwoFree, UsedTotal, Allotted;
      ghost var was := blocks;
      i' := 0;
      HeaderFacts(headers, blocks, Top(), i);
      q, j := Malloc(n);
      assert data[p..p + m] == old(data[p..p + m]);
      if q.None? { return; }
      AllottedShape(was, j, Padded(n));
      AlignedUp(n);
      i' := NewIndex(was, blocks, i, j);
      OthersFound(was, blocks, Top(), i, i', j);
    }

    /** The branch of rt_realloc that moves to a new block, or fails and leaves everything alone. */
    method Move(ghost i: nat, p: int, n: nat) returns (q: Option<int>, ghost j: nat)
      requires Valid() && i < |blocks| && blocks[i].used && p == blocks[i].at + HEADER
      modifies this, data
      ensures Valid() && Kept(i)
      ensures q.None? <==> Refused(old(blocks), old(lf), memSize, n)
      ensures q.None? ==> blocks == old(blocks) && Kept(-1)
      ensures q.Some? ==> FirstFit(old(blocks), old(lf), Padded(n), j) && q.value == old(blocks)[j].at + HEADER
      ensures q.Some? ==> blocks == Moved(old(blocks), i, j, Padded(n))
      ensures q.None? ==> usedMem == old(usedMem) && maxMem == old(maxMem)
      ensures q.Some? ==>
                var b, c, room := old(blocks)[i], old(blocks)[j], Padded(n);
                usedMem == old(usedMem) - (b.end - b.at)
                           + (if c.at + HEADER + room + HEADER + MIN_SIZE_ALIGNED <= c.end
                              then HEADER + room else c.end - c.at)
      ensures q.Some? ==> Holds(q.value, n) && Carried(q.value, p, n, old(blocks)[i].end - p)
      ensures old(LfreeLowest()) ==> LfreeLowest()
    {
      hide Tiling, Mirror, NoTwoFree, UsedTotal, Refused, Allotted, Coalesced, Released, HoldsByte, FirstFit, NewIndex,
           LfreeLowest, SameText;
      HeaderFacts(headers, blocks, Top(), i);
      var size := headers[p - HEADER].next - p;
      ghost var i';
      var m := if size < n then size else n;
      assert m == if old(blocks)[i].end - p < n then old(blocks)[i].end - p else n;
      ghost var was, b0 := blocks, data[..];
      q, i', j := Obtain(i, n, p, m);
      if q.None? { return; }
      ghost var mid, b1 := blocks, data[..];
      Migrate(i', j, p, q.value, m);
      KeptTwice(was, b0, mid, b1, blocks, data[..], i, i', j);
      TextMoves(b0, b1, data[..], q.value, p, m);
      assert mid[j] in blocks;
    }

    /** `p` is outside the heap, or begins block `i`, which is used. */
    ghost predicate Pointer(p: int, i: nat)
      reads this
    {
      0 <= p < Top() ==> i < |blocks| && blocks[i].used && p == blocks[i].at + HEADER
    }

    method Free(p: Option<int>, ghost i: nat)
      requires Valid() && (p.Some? ==> Pointer(p.value, i))
      modifies this, data
      ensures Valid() && Kept(if p.Some? && 0 <= p.value < Top() then i else -1)
      ensures blocks == if p.Some? && 0 <= p.value < Top() then Coalesced(Released(old(blocks), i), i) else old(blocks)
      ensures p.Some? && 0 <= p.value < Top() ==>
                var bs := old(blocks);
                var f := if i > 0 && !bs[i - 1].used then i - 1 else i;
                var l := if i + 1 < |bs| && !bs[i + 1].used then i + 1 else i;
                && blocks == bs[..f] + [Block(bs[f].at, bs[l].end, false)] + bs[l + 1..]
                && usedMem == old(usedMem) - (bs[i].end - bs[i].at)
      ensures p.None? || !(0 <= p.value < Top()) ==> usedMem == old(usedMem)
      ensures maxMem == old(maxMem)
      ensures old(LfreeLowest()) ==> LfreeLowest()
    {
      hide Tiling, Mirror, NoTwoFree, UsedTotal, Coalesced, Released;
      if p.None? { return; }
      if p.value < 0 || p.value >= memSize + HEADER { return; }
      FreedIs(blocks, i);
      FreeBlock(i, p.value);
    }

    /** rt_realloc of a block in the heap, with the size already rounded up. */
    method Resize(ghost i: nat, p: int, n: nat) returns (q: Option<int>, ghost j: nat)
      requires Valid() && i < |blocks| && blocks[i].used && p == blocks[i].at + HEADER && n % RT_ALIGN_SIZE == 0
      modifies this, data
      ensures Valid() && Kept(i) && (q.None? ==> blocks == old(blocks) && Kept(-1))
      ensures q.None? <==> Relocates(old(blocks)[i], n) && Refused(old(blocks), old(lf), memSize, n)
      ensures q.Some? ==> Resized(old(blocks), old(lf), i, j, n, q.value, blocks)
      ensures q.Some? ==>
                var bs, end := old(blocks), old(blocks)[i].end;
                if end - p == n then q.value == p && blocks == bs && usedMem == old(usedMem)
                else if n + HEADER + MIN_SIZE < end - p then
                  var l := if i + 1 < |bs| && !bs[i + 1].used then i + 1 else i;
                  && q.value == p && usedMem == old(usedMem) - (end - p - n)
                  && blocks == bs[..i] + [Block(p - HEADER, p + n, true), Block(p + n, bs[l].end, false)] + bs[l + 1..]
                else
                  && old(lf) <= j < |bs| && !bs[j].used && q.value == bs[j].at + HEADER
                  && q.value + Padded(n) <= bs[j].end
                  && usedMem == old(usedMem) - (end - p + HEADER)
                                + (if q.value + Padded(n) + HEADER + MIN_SIZE_ALIGNED <= bs[j].end
                                   then HEADER + Padded(n) else bs[j].end - bs[j].at)
      ensures q.None? ==> usedMem == old(usedMem)
      ensures q.Some? ==> Holds(q.value, n) && Carried(q.value, p, n, old(blocks)[i].end - p)
      ensures old(LfreeLowest()) && !Cuts(old(blocks)[i], n) ==> LfreeLowest()
      ensures old(LfreeLowest()) && Cuts(old(blocks)[i], n) ==>
                (LfreeLowest() <==> old(lf) <= i + 1 && old(lf) < |old(blocks)|)
    {
      hide Tiling, Mirror, NoTwoFree, UsedTotal, Refused, Moved, Shrunk;
      HeaderFacts(headers, blocks, Top(), i);
      var size := headers[p - HEADER].next - p;
      if size == n {
        assert blocks[i] in blocks;
        return Some(p), i;
      }
      if n + HEADER + MIN_SIZE < size {
        ShrunkIs(blocks, i, p + n);
        Shrink(i, p - HEADER, n);
        return Some(p), i;
      }
      q, j := Move(i, p, n);
    }

    /** The first `n` bytes at `q`, as far as the old block went, are those that were at `p`. */
    twostate predicate Carried(q: int, p: int, n: nat, size: int)
      reads this, data
    {
      SameText(old(data[..]), data[..], q, p, if size < n then size else n)
    }

    /** `p` points into the heap. */
    ghost predicate Inside(p: Option<int>) {
      p.Some? && 0 <= p.value < Top()
    }

    /** The branch of rt_realloc for no block at all. */
    method Fresh(n: nat) returns (q: Option<int>, ghost j: nat)
      requires Valid()
      modifies this, data
      ensures Valid() && Kept(-1)
      ensures q.None? <==> Refused(old(blocks), old(lf), memSize, n)
      ensures q.None? ==> blocks == old(blocks) && usedMem == old(usedMem)
      ensures q.Some? ==> FirstFit(old(blocks), old(lf), Padded(n), j) && q.value == old(blocks)[j].at + HEADER
      ensures q.Some? ==> blocks == Allotted(old(blocks), j, Padded(n)) && Holds(q.value, n)
      ensures old(LfreeLowest()) ==> LfreeLowest()
    {
      hide Tiling, Mirror, NoTwoFree, UsedTotal, Allotted, Refused, LfreeLowest, HoldsByte;
      ghost var was := blocks;
      q, j := Malloc(n);
      if q.Some? {
        AllottedShape(was, j, Padded(n));
        AlignedUp(n);
        assert blocks[j] in blocks;
      }
    }

    method Realloc(p: Option<int>, ghost i: nat, newSize: nat) returns (q: Option<int>, ghost j: nat)
      requires Valid() && (p.Some? ==> Pointer(p.value, i))
      modifies this, data
      ensures Valid() && Kept(if Inside(p) then i else -1)
      ensures var n := AlignUp(newSize);
              q.None? <==>
                || n == 0 || n > memSize
                || ((p.None? || (Inside(p) && Relocates(old(blocks)[i], n)))
                    && Refused(old(blocks), old(lf), memSize, n))
      ensures q.None? && newSize > 0 ==> blocks == old(blocks) && Kept(-1)
      ensures newSize == 0 ==> blocks == if Inside(p) then Coalesced(Released(old(blocks), i), i) else old(blocks)
      ensures q.Some? && p.None? ==>
                && FirstFit(old(blocks), old(lf), Padded(newSize), j) && q.value == old(blocks)[j].at + HEADER
                && blocks == Allotted(old(blocks), j, Padded(newSize))
      ensures q.Some? && p.Some? && !Inside(p) ==> q == p && blocks == old(blocks)
      ensures q.Some? && Inside(p) ==> Resized(old(blocks), old(lf), i, j, AlignUp(newSize), q.value, blocks)
      ensures q.Some? && Inside(p) ==>
                var bs, end, n := old(blocks), old(blocks)[i].end, AlignUp(newSize);
                if end - p.value == n then q == p && blocks == bs && usedMem == old(usedMem)
                else if n + HEADER + MIN_SIZE < end - p.value then
                  var l := if i + 1 < |bs| && !bs[i + 1].used then i + 1 else i;
                  && q == p && usedMem == old(usedMem) - (end - p.value - n)
                  && blocks == bs[..i] + [Block(p.value - HEADER, p.value + n, true),
                                          Block(p.value + n, bs[l].end, false)] + bs[l + 1..]
                else
                  && old(lf) <= j < |bs| && !bs[j].used && q.value == bs[j].at + HEADER
                  && q.value + Padded(n) <= bs[j].end
                  && usedMem == old(usedMem) - (end - p.value + HEADER)
                                + (if q.value + Padded(n) + HEADER + MIN_SIZE_ALIGNED <= bs[j].end
                                   then HEADER + Padded(n) else bs[j].end - bs[j].at)
      ensures q.Some? && (p.None? || Inside(p)) ==> Holds(q.value, newSize)
      ensures q.Some? && Inside(p) ==> Carried(q.value, p.value, AlignUp(newSize), old(blocks)[i].end - p.value)
      ensures old(LfreeLowest()) && !(q.Some? && Inside(p) && Cuts(old(blocks)[i], AlignUp(newSize))) ==> LfreeLowest()
      ensures old(LfreeLowest()) && q.Some? && Inside(p) && Cuts(old(blocks)[i], AlignUp(newSize)) ==>
                (LfreeLowest() <==> old(lf) <= i + 1 && old(lf) < |old(blocks)|)
    {
      hide Tiling, Mirror, NoTwoFree, UsedTotal, Coalesced, Released, Allotted, Refused, Resized, LfreeLowest, Carried,
           SameText, HoldsByte;
      AlignedUp(newSize);
      var n := AlignUp(newSize);
      j := 0;
      if n > memSize { return None, j; }
      if n == 0 {
        Free(p, i);
        return None, j;
      }
      if p.None? {
        AlignedAlready(newSize);
        q, j := Fresh(n);
        return;
      }
      if p.value < 0 || p.value >= memSize + HEADER { return p, j; }
      q, j := Resize(i, p.value, n);
    }
  }

  lemma AlignedAlready(size: nat)
    ensures AlignUp(AlignUp(size)) == AlignUp(size) && Padded(AlignUp(size)) == Padded(size)
  {
  }

  /** What block `i` holds has moved to block `j`, and block `i` is free. */
  ghost function Moved(bs: Blocks, i: nat, j: nat, size: nat): (r: Blocks)
    requires i < |bs| && j < |bs| && Fits(bs[j], size)
  {
    var r := Allotted(bs, j, size);
    var i' := NewIndex(bs, r, i, j);
    Coalesced(Released(r, i'), i')
  }

  /** rt_realloc needs a new block: the old one has another size, and is not cut. */
  ghost predicate Relocates(b: Block, n: nat) {
    b.end - b.at - HEADER != n && !Cuts(b, n)
  }

  /** The three ways in which rt_realloc serves a request: as it was, cut, or moved. */
  ghost predicate Resized(bs: Blocks, from: nat, i: nat, j: nat, n: nat, q: int, bs': Blocks)
    requires i < |bs|
  {
    if Relocates(bs[i], n) then
      FirstFit(bs, from, Padded(n), j) && q == bs[j].at + HEADER && bs' == Moved(bs, i, j, Padded(n))
    else
      q == bs[i].at + HEADER && bs' == if Cuts(bs[i], n) then Shrunk(bs, i, q + n) else bs
  }

  /** rt_realloc cuts a block if the rest can stand on its own. */
  ghost predicate Cuts(b: Block, n: nat) {
    n + HEADER + MIN_SIZE < b.end - b.at - HEADER
  }

  // ----- what the hint and the search limit mean -----

  /** A new heap of twelve bytes turns down a request for twelve bytes. */
  method LastBlockRefused() returns (heap: Heap, p: Option<int>)
    ensures fresh(heap) && heap.Valid() && p.None?
    ensures heap.blocks == [Block(0, 24, false)] && Fits(heap.blocks[0], 12)
  {
    hide Tiling, Mirror, NoTwoFree, UsedTotal;
    heap := new Heap(0, 36);
    assert Padded(12) == 12 && heap.memSize == 12;
    ghost var i;
    p, i := heap.Malloc(12);
  }

  /** Cutting a block of a heap that is in full use leaves a free block in front of `lfree`. */
  method CutLeavesHintBehind() returns (heap: Heap)
    ensures fresh(heap) && heap.Valid() && !heap.LfreeLowest()
  {
    hide Tiling, Mirror, NoTwoFree, UsedTotal;
    heap := new Heap(0, 124);
    assert heap.memSize == 100 && heap.blocks == [Block(0, 112, false)];
    assert !heap.blocks[0].used;
    assert Padded(88) == 88;
    ghost var i;
    var p;
    p, i := heap.Malloc(88);
    assert p.Some? && i == 0;
    assert heap.blocks == [Block(0, 112, true)];
    assert heap.lf == 1;
    var q;
    q, i := heap.Resize(0, p.value, 20);
  }

  /** While `lfree` is the lowest free block, searching from it is searching from the start. */
  lemma SearchFromStart(bs: Blocks, from: nat, memSize: nat, size: nat)
    requires from <= |bs| && forall k :: 0 <= k < from ==> bs[k].used
    ensures Refused(bs, from, memSize, size) <==> Refused(bs, 0, memSize, size)
    ensures forall n: nat, i: nat :: FirstFit(bs, from, n, i) <==> FirstFit(bs, 0, n, i)
  {
  }

  /**
   A request that is neither empty nor too large is refused exactly if no block has room for it but,
   possibly, the last one, and that one without a byte to spare.
   */
  lemma RefusedWhen(bs: Blocks, memSize: nat, size: nat)
    requires Tiling(bs, memSize + HEADER, HEADER)
    requires size > 0 && AlignUp(size) <= memSize
    ensures Refused(bs, 0, memSize, size) <==>
              forall k :: 0 <= k < |bs| && Fits(bs[k], Padded(size)) ==>
                k == |bs| - 1 && bs[k].end - bs[k].at - HEADER == Padded(size)
  {
    hide Tiling, AlignUp;
    forall k | 0 <= k < |bs| && Fits(bs[k], Padded(size))
      ensures bs[k].at < memSize - Padded(size) <==>
                !(k == |bs| - 1 && bs[k].end - bs[k].at - HEADER == Padded(size))
    {
      WithinHeap(bs, memSize + HEADER, HEADER, k);
    }
  }

  /** Blocks that were neither `i` nor `j` are found again among blocks that are not these two. */
  lemma OthersFound(was: Blocks, mid: Blocks, top: int, i: nat, i': nat, j: nat)
    requires Tiling(was, top, HEADER) && i < |was| && j < |was| && was[i].used && !was[j].used
    requires i' < |mid| && mid[i'] == was[i] && j < |mid| && mid[j].at == was[j].at
    requires forall k :: 0 <= k < |was| && was[k].used ==> was[k] in mid
    ensures forall k :: 0 <= k < |was| && k != i && was[k].used ==>
              exists k' :: 0 <= k' < |mid| && mid[k'] == was[k] && k' != i' && k' != j
  {
    hide Tiling;
    forall k | 0 <= k < |was| && k != i && was[k].used
      ensures exists k' :: 0 <= k' < |mid| && mid[k'] == was[k] && k' != i' && k' != j
    {
      OffsetOrder(was, top, HEADER, i, k);
      OffsetOrder(was, top, HEADER, j, k);
      var k' :| 0 <= k' < |mid| && mid[k'] == was[k];
    }
  }

  lemma ShrunkMembers(bs: Blocks, i: nat, ptr2: int)
    requires i < |bs| && bs[i].used && NoTwoFree(bs)
    ensures forall j :: 0 <= j < |bs| && j != i && bs[j].used ==> bs[j] in Shrunk(bs, i, ptr2)
  {
    hide Replace, Coalesced, UsedTotal;
    ShrunkGood(bs, i, ptr2);
    var cut := Replace(bs, i, i + 1, Cut(bs[i], ptr2));
    CoalescedMembers(cut, i + 1);
    forall j | 0 <= j < |bs| && j != i && bs[j].used
      ensures bs[j] in Shrunk(bs, i, ptr2)
    {
      assert bs[j] == cut[if j < i then j else j + 1];
    }
  }

  ghost function Shrunk(bs: Blocks, i: nat, ptr2: int): (r: Blocks)
    requires i < |bs|
  {
    Coalesced(Replace(bs, i, i + 1, Cut(bs[i], ptr2)), i + 1)
  }

  lemma ShrunkGood(bs: Blocks, i: nat, ptr2: int)
    requires i < |bs| && bs[i].used && NoTwoFree(bs)
    ensures var cut := Replace(bs, i, i + 1, Cut(bs[i], ptr2));
            && |cut| == |bs| + 1
            && (forall k :: 0 <= k < i ==> cut[k] == bs[k])
            && cut[i] == Block(bs[i].at, ptr2, true) && cut[i + 1] == Block(ptr2, bs[i].end, false)
            && (forall k :: i + 2 <= k < |cut| ==> cut[k] == bs[k - 1])
            && UsedTotal(cut) == UsedTotal(bs) - (bs[i].end - ptr2)
    ensures NoTwoFree(Shrunk(bs, i, ptr2))
    ensures var r := Shrunk(bs, i, ptr2);
            && i + 1 < |r|
            && (forall k :: 0 <= k <= i ==> r[k] == if k == i then Block(bs[i].at, ptr2, true) else bs[k])
            && !r[i + 1].used
  {
    hide UsedTotal, Replace, Joined;
    var mid := Cut(bs[i], ptr2);
    var cut := Replace(bs, i, i + 1, mid);
    Replaced(bs, i, i + 1, mid);
    assert cut[i] == mid[0] && cut[i + 1] == mid[1];
    ReplaceUsedTotal(bs, i, i + 1, mid);
    assert bs[i..i + 1] == [bs[i]];
    UsedTotalFew(bs[i], bs[i]);
    UsedTotalFew(mid[0], mid[1]);
    UsedTotalFew(mid[1], mid[1]);
    forall k | 0 <= k < |cut| - 1 && k != i + 1 && k != i
      ensures cut[k].used || cut[k + 1].used
    {
      if k > i + 1 { assert bs[k - 1].used || bs[k].used; }
      if k < i { assert bs[k].used || bs[k + 1].used; }
    }
    CoalescedSparse(cut, i + 1);
    if i + 2 < |cut| && !cut[i + 2].used { JoinedShape(cut, i + 1); }
  }

  /** A block is cut: the rest, joined with a free block behind it, is free. */
  lemma ShrunkIs(bs: Blocks, i: nat, ptr2: int)
    requires i < |bs| && bs[i].used
    ensures var l := if i + 1 < |bs| && !bs[i + 1].used then i + 1 else i;
            Shrunk(bs, i, ptr2) == bs[..i] + [Block(bs[i].at, ptr2, true), Block(ptr2, bs[l].end, false)] + bs[l + 1..]
  {
    hide Coalesced, Replace;
    var mid := Cut(bs[i], ptr2);
    var cut := Replace(bs, i, i + 1, mid);
    Replaced(bs, i, i + 1, mid);
    assert cut[i] == mid[0] && cut[i + 1] == mid[1];
    CoalescedIs(cut, i + 1);
  }

  lemma ReleasedTotal(bs: Blocks, i: nat)
    requires i < |bs| && bs[i].used
    ensures UsedTotal(Released(bs, i)) == UsedTotal(bs) - (bs[i].end - bs[i].at)
  {
    hide UsedTotal, Replace;
    ReplaceUsedTotal(bs, i, i + 1, [bs[i].(used := false)]);
    assert bs[i..i + 1] == [bs[i]];
    UsedTotalFew(bs[i], bs[i]);
    UsedTotalFew(bs[i].(used := false), bs[i]);
  }

  function Padded(size: nat): (n: nat) {
    if AlignUp(size) < MIN_SIZE_ALIGNED then MIN_SIZE_ALIGNED else AlignUp(size)
  }

  lemma AlignedUp(size: nat)
    ensures size <= AlignUp(size) < size + RT_ALIGN_SIZE && AlignUp(size) % RT_ALIGN_SIZE == 0
    ensures Padded(size) % RT_ALIGN_SIZE == 0
  {
  }

  /** What is set aside for a request is the least multiple of four that holds it and a smallest block. */
  lemma PaddedIsLeast(size: nat)
    ensures size <= Padded(size) && MIN_SIZE <= Padded(size) && Padded(size) % RT_ALIGN_SIZE == 0
    ensures forall m :: size <= m && MIN_SIZE <= m && m % RT_ALIGN_SIZE == 0 ==> Padded(size) <= m
  {
  }

  /** A request is turned down if it is for nothing, or too much, or no free block short of the limit has room. */
  lemma RefusedIs(bs: Blocks, from: nat, memSize: nat, size: nat)
    ensures Refused(bs, from, memSize, size) <==>
              || size == 0 || size > memSize / RT_ALIGN_SIZE * RT_ALIGN_SIZE
              || forall k :: from <= k < |bs| && !bs[k].used && bs[k].at + Padded(size) < memSize ==>
                   bs[k].at + HEADER + Padded(size) > bs[k].end
  {
  }

  /** Block `i` is the first from index `from` on that has room for `n` bytes. */
  ghost predicate FirstFit(bs: Blocks, from: nat, n: nat, i: nat) {
    && from <= i < |bs| && Fits(bs[i], n)
    && forall k :: from <= k < i ==> !Fits(bs[k], n)
  }

  /** A request rt_malloc turns down: nothing asked for, too much, or no room short of the last bytes. */
  ghost predicate Refused(bs: Blocks, from: nat, memSize: nat, size: nat) {
    || size == 0
    || AlignUp(size) > memSize
    || forall k :: from <= k < |bs| && bs[k].at < memSize - Padded(size) ==> !Fits(bs[k], Padded(size))
  }

  /** The first and last of the blocks that joining touches. */
  ghost function First(bs: Blocks, i: nat): (k: nat)
    requires i < |bs|
    ensures k <= i
  {
    if i > 0 && !bs[i - 1].used then i - 1 else i
  }

  ghost function Last(bs: Blocks, i: nat): (k: nat)
    requires i < |bs|
    ensures i <= k < |bs|
  {
    if i + 1 < |bs| && !bs[i + 1].used then i + 1 else i
  }

  lemma CutAligned(headers: map<int, Header>, bs: Blocks, top: int, i: nat, size: nat)
    requires Tiling(bs, top, HEADER) && Mirror(headers, bs, top) && i < |bs| && size % RT_ALIGN_SIZE == 0
    ensures bs[i].at in headers && headers[bs[i].at] == HeaderOf(bs, i)
    ensures (bs[i].at + HEADER + size) % RT_ALIGN_SIZE == 0 && bs[i].at + HEADER <= bs[i].end
  {
    hide Tiling;
    BlockAligned(bs, top, i);
    SumAligned(bs[i].at, size);
  }

  lemma BlockAligned(bs: Blocks, top: int, i: nat)
    requires Tiling(bs, top, HEADER) && i < |bs|
    ensures Aligned(bs[i], HEADER)
  {
  }

  lemma SumAligned(at: int, size: int)
    requires at % RT_ALIGN_SIZE == 0 && size % RT_ALIGN_SIZE == 0
    ensures (at + HEADER + size) % RT_ALIGN_SIZE == 0
  {
  }

  lemma AllottedTotal(bs: Blocks, i: nat, size: nat)
    requires i < |bs| && Fits(bs[i], size)
    ensures UsedTotal(Allotted(bs, i, size)) == UsedTotal(bs) + Halves(bs[i], size)[0].end - bs[i].at
  {
    hide UsedTotal;
    var mid := Halves(bs[i], size);
    ReplaceUsedTotal(bs, i, i + 1, mid);
    assert bs[i..i + 1] == [bs[i]];
    UsedTotalFew(bs[i], bs[i]);
    UsedTotalFew(mid[0], mid[|mid| - 1]);
    assert mid == if |mid| == 1 then [mid[0]] else [mid[0], mid[1]];
    UsedTotalFew(mid[|mid| - 1], mid[0]);
  }
}
