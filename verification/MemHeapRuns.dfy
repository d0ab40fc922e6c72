/** Every run of a client of a memory-heap object: what it holds stays allocated, apart, and unchanged. */
module MemHeapRuns {
  import opened Lists
  import opened HeapBlocks
  import opened HeapClients
  import M = MemHeap

  /** A heap's links, counters and bytes, and the blocks and free list they stand for. */
  datatype Picture = Picture(q: M.Fields, v: M.View)

  ghost function PictureOf(heap: M.MemHeap): (s: Picture)
    reads heap
  {
    Picture(heap.q, heap.v)
  }

  ghost predicate Begins(blocks: Blocks, i: nat, p: int) {
    i < |blocks| && blocks[i].used && blocks[i].at + M.ITEM == p
  }

  /** A request takes the first block of the free list that has room for it. */
  ghost predicate Took(s: Picture, i: nat, content: Bytes, held: Held, s': Picture, held': Held) {
    && M.FirstListed(s.q, s.v, M.Rounded(|content|), i)
    && s'.v.blocks == M.Given(s.v.blocks, i, M.Rounded(|content|))
    && s.v.blocks[i].at + M.ITEM !in held && held' == held[s.v.blocks[i].at + M.ITEM := content]
  }

  ghost predicate Same(s: Picture, held: Held, s': Picture, held': Held) {
    s' == s && held' == held
  }

  ghost predicate GaveBack(s: Picture, i: nat, p: int, held: Held, s': Picture, held': Held) {
    Begins(s.v.blocks, i, p) && s'.v.blocks == Coalesced(Released(s.v.blocks, i), i) && held' == held - {p}
  }

  /** Block `i` is left alone, grown, cut or moved, and its bytes go with it. */
  ghost predicate GotSize(s: Picture, i: nat, j: nat, p: int, size: nat, q: int, content: Bytes, held: Held,
                          s': Picture, held': Held) {
    && Begins(s.v.blocks, i, p) && M.Resized(s.q, s.v, i, j, M.Rounded(size), q, s'.v.blocks)
    && Resized(held, held', p, size, q, content)
  }

  ghost predicate TurnsDown(s: Picture, i: nat, p: int, size: nat) {
    && Begins(s.v.blocks, i, p)
    && M.Relocates(s.v.blocks, i, M.Rounded(size)) && !M.HasRoom(s.q, s.v, M.Rounded(size))
  }

  /** What each operation does to the blocks and to what the client holds, and when it is turned down. */
  ghost predicate Did(op: Op, s: Picture, held: Held, s': Picture, held': Held) {
    match op
    case MallocOp(content) =>
      if M.HasRoom(s.q, s.v, M.Rounded(|content|)) then exists i :: Took(s, i, content, held, s', held')
      else Same(s, held, s', held')
    case FreeOp(p) =>
      if p in held then exists i :: GaveBack(s, i, p, held, s', held') else Same(s, held, s', held')
    case ReallocOp(p, size) =>
      if p !in held then Same(s, held, s', held')
      else if size == 0 then exists i :: GaveBack(s, i, p, held, s', held')
      else
        || (Same(s, held, s', held') && exists i :: TurnsDown(s, i, p, size))
        || (exists i, j, q, content ::
              !TurnsDown(s, i, p, size) && GotSize(s, i, j, p, size, q, content, held, s', held'))
  }

  lemma KeptSpares(blocks: Blocks, bytes: Bytes, blocks': Blocks, bytes': Bytes, except: int)
    requires |bytes'| == |bytes| && M.OthersUntouched(blocks, blocks', bytes', bytes, except)
    ensures Spared(blocks, bytes, blocks', bytes', M.ITEM, except)
  {
    forall i | 0 <= i < |blocks| && i != except && blocks[i].used
      ensures blocks[i] in blocks' && SameBytes(blocks[i], bytes, bytes', M.ITEM)
    {
      var b := blocks[i];
      assert M.Untouched(b, blocks', bytes', bytes);
      var part, was := bytes'[b.at + M.ITEM..b.end], bytes[b.at + M.ITEM..b.end];
      forall k | b.at + M.ITEM <= k < b.end
        ensures 0 <= k < |bytes| ==> bytes'[k] == bytes[k]
      {
        assert part[k - b.at - M.ITEM] == was[k - b.at - M.ITEM];
      }
    }
  }

  ghost predicate Holding(heap: M.MemHeap, held: Held)
    reads heap
  {
    Keeps(held, heap.v.blocks, heap.q.bytes, M.ITEM)
  }

  /** The client writes into a block of its own. */
  method Fill(heap: M.MemHeap, ghost i: nat, p: int, content: Bytes)
    requires heap.Valid() && i < |heap.v.blocks| && heap.v.blocks[i].used
    requires p == heap.v.blocks[i].at + M.ITEM && p + |content| <= heap.v.blocks[i].end
    modifies heap`q
    ensures heap.Valid()
    ensures Spared(heap.v.blocks, old(heap.q.bytes), heap.v.blocks, heap.q.bytes, M.ITEM, i)
    ensures KeptIn(heap.v.blocks, p, content, heap.q.bytes, M.ITEM)
  {
    hide M.Shape, M.FreeTotal, NoTwoFree, Spared;
    ghost var top := heap.poolSize - M.ITEM;
    IsTiling(heap);
    M.NextIsEnd(heap.q, heap.v, top, {}, i);
    heap.q := heap.q.(bytes := heap.q.bytes[..p] + content + heap.q.bytes[p + |content|..]);
    M.SameShape(old(heap.q), heap.q, heap.v, top, {});
    WriteSpares(heap.v.blocks, old(heap.q.bytes), heap.q.bytes, M.ITEM, top, i, p, |content|);
    assert heap.q.bytes[p..p + |content|] == content;
    assert InBlock(heap.v.blocks[i], p, content, heap.q.bytes, M.ITEM);
  }

  lemma IsTiling(heap: M.MemHeap)
    requires heap.Valid()
    ensures Tiling(heap.v.blocks, heap.poolSize - M.ITEM, M.ITEM) && NoTwoFree(heap.v.blocks)
    ensures heap.q.available == M.FreeTotal(heap.v.blocks)
  {
  }

  /** A request, with what it leaves alone. */
  method Request(heap: M.MemHeap, size: nat) returns (p: Option<int>, ghost i: nat)
    requires heap.Valid()
    modifies heap
    ensures heap.Valid()
    ensures p.Some? <==> M.HasRoom(old(heap.q), old(heap.v), M.Rounded(size))
    ensures p.None? ==> heap.q == old(heap.q) && heap.v == old(heap.v)
    ensures p.Some? ==>
              && M.FirstListed(old(heap.q), old(heap.v), M.Rounded(size), i)
              && p.value == old(heap.v.blocks)[i].at + M.ITEM
              && heap.v.blocks == M.Given(old(heap.v.blocks), i, M.Rounded(size))
    ensures p.Some? ==>
              && i < |heap.v.blocks| && heap.v.blocks[i].used && heap.v.blocks[i].at + M.ITEM == p.value
              && p.value + size <= heap.v.blocks[i].end
    ensures Spared(old(heap.v.blocks), old(heap.q.bytes), heap.v.blocks, heap.q.bytes, M.ITEM, -1)
  {
    hide M.Shape, M.FreeTotal, NoTwoFree, M.Given, M.Rounded, M.HasRoom, M.DataSame, Spared, M.OthersUntouched;
    ghost var was, bytes, top := heap.v.blocks, heap.q.bytes, heap.poolSize - M.ITEM;
    M.ItselfUntouched(heap.q, heap.v, top, bytes, -1);
    p, i := heap.Alloc(size);
    if p.Some? {
      M.RoundedIs(size);
      M.AllocKeeps(was, i, M.Rounded(size));
      M.AllGiven(was, heap.q, heap.v, top, bytes);
    }
    KeptSpares(was, bytes, heap.v.blocks, heap.q.bytes, -1);
  }

  method ActMalloc(heap: M.MemHeap, content: Bytes, held: Held) returns (held': Held)
    requires heap.Valid() && Holding(heap, held)
    modifies heap
    ensures heap.Valid() && Holding(heap, held')
    ensures Did(MallocOp(content), old(PictureOf(heap)), held, PictureOf(heap), held')
  {
    hide M.Sound, M.Given, M.Rounded, M.HasRoom, Spared, KeptIn, Keeps;
    ghost var s, was, bytes, top := PictureOf(heap), heap.v.blocks, heap.q.bytes, heap.poolSize - M.ITEM;
    IsTiling(heap);
    var p;
    ghost var i;
    p, i := Request(heap, |content|);
    if p.None? { return held; }
    OthersKept(held, was, bytes, heap.v.blocks, heap.q.bytes, M.ITEM, -1);
    assert held - {} == held;
    FreeNotHeld(held, was, bytes, M.ITEM, top, i);
    ghost var bytes' := heap.q.bytes;
    Fill(heap, i, p.value, content);
    OthersKept(held, heap.v.blocks, bytes', heap.v.blocks, heap.q.bytes, M.ITEM, i);
    assert held - {p.value} == held;
    OneMore(held, heap.v.blocks, heap.q.bytes, M.ITEM, p.value, content);
    held' := held[p.value := content];
    assert Took(s, i, content, held, PictureOf(heap), held');
  }

  method ActFree(heap: M.MemHeap, p: int, held: Held) returns (held': Held)
    requires heap.Valid() && Holding(heap, held)
    modifies heap
    ensures heap.Valid() && Holding(heap, held')
    ensures Did(FreeOp(p), old(PictureOf(heap)), held, PictureOf(heap), held')
  {
    hide M.Shape, M.FreeTotal, NoTwoFree, Coalesced, Released, Spared, KeptIn, Keeps, M.DataSame, M.OthersUntouched;
    held' := held - {p};
    if p !in held {
      assert held' == held;
      return;
    }
    ghost var s, was, bytes, top := PictureOf(heap), heap.v.blocks, heap.q.bytes, heap.poolSize - M.ITEM;
    ghost var i := BlockOf(held, was, bytes, M.ITEM, p);
    M.DifferentBlocks(heap.q, heap.v, top, {});
    M.FreeKeeps(was, i);
    heap.Free(Some(p), i);
    M.AllFreed(s.q, s.v, top, heap.v.blocks, heap.q.bytes, i);
    KeptSpares(was, bytes, heap.v.blocks, heap.q.bytes, i);
    OthersKept(held, was, bytes, heap.v.blocks, heap.q.bytes, M.ITEM, i);
    assert GaveBack(s, i, p, held, PictureOf(heap), held');
  }

  ghost predicate WasFree(blocks: Blocks, j: nat, q: int) {
    j < |blocks| && !blocks[j].used && q == blocks[j].at + M.ITEM
  }

  /** What comes of resizing block `i`. */
  ghost predicate Outcome(s: Picture, i: nat, j: nat, p: int, size: nat, q: Option<int>, s': Picture) {
    && Begins(s.v.blocks, i, p)
    && if size == 0 then s'.v.blocks == Coalesced(Released(s.v.blocks, i), i)
       else
         && (q.None? <==> TurnsDown(s, i, p, size))
         && (q.None? ==> s' == s)
         && (q.Some? ==> M.Resized(s.q, s.v, i, j, M.Rounded(size), q.value, s'.v.blocks))
  }

  /** A block stays where it is, or what it holds goes to a block that was free. */
  lemma WhereTo(s: Picture, i: nat, j: nat, n: nat, q: int, blocks': Blocks)
    requires i < |s.v.blocks| && M.Resized(s.q, s.v, i, j, n, q, blocks')
    ensures q == s.v.blocks[i].at + M.ITEM || WasFree(s.v.blocks, j, q)
  {
  }

  method Reallocate(heap: M.MemHeap, ghost i: nat, p: int, size: nat, ghost n: nat)
    returns (q: Option<int>, ghost j: nat)
    requires heap.Valid() && i < |heap.v.blocks| && heap.v.blocks[i].used && p == heap.v.blocks[i].at + M.ITEM
    requires n <= size && p + n <= heap.v.blocks[i].end
    modifies heap
    ensures heap.Valid() && (size == 0 ==> q.None?)
    ensures Spared(old(heap.v.blocks), old(heap.q.bytes), heap.v.blocks, heap.q.bytes, M.ITEM, i)
    ensures Outcome(old(PictureOf(heap)), i, j, p, size, q, PictureOf(heap))
    ensures q.Some? ==> WasFree(old(heap.v.blocks), j, q.value) || q.value == p
    ensures q.Some? ==>
              && 0 <= q.value && q.value + size <= |heap.q.bytes| && 0 <= p && p + n <= |old(heap.q.bytes)|
              && KeptIn(heap.v.blocks, q.value, heap.q.bytes[q.value..q.value + size], heap.q.bytes, M.ITEM)
              && heap.q.bytes[q.value..q.value + n] == old(heap.q.bytes)[p..p + n]
  {
    hide M.ByOffsets, M.Shape, M.FreeTotal, NoTwoFree, M.Given, M.Rounded, M.HasRoom, M.Resized, M.Relocates,
         Coalesced, Released, Spared, KeptIn, M.OthersUntouched;
    ghost var s, was, bytes := PictureOf(heap), heap.v.blocks, heap.q.bytes;
    M.RoundedIs(size);
    ghost var b;
    q, b, j := heap.Realloc(Some(p), size, i);
    KeptSpares(was, bytes, heap.v.blocks, heap.q.bytes, i);
    if q.Some? {
      WhereTo(s, i, j, M.Rounded(size), q.value, heap.v.blocks);
      HasBytes(heap, b, q.value, size);
      ghost var m := if M.Rounded(size) < M.SizeOf(was[i]) then M.Rounded(size) else M.SizeOf(was[i]);
      ShorterPrefix(heap.q.bytes, bytes, q.value, p, m, n);
    }
  }

  lemma HasBytes(heap: M.MemHeap, b: Block, q: int, size: nat)
    requires heap.Valid() && b in heap.v.blocks && b.used && q == b.at + M.ITEM && M.SizeOf(b) >= size
    ensures 0 <= q && q + size <= |heap.q.bytes|
    ensures KeptIn(heap.v.blocks, q, heap.q.bytes[q..q + size], heap.q.bytes, M.ITEM)
  {
    hide M.Shape, M.FreeTotal, NoTwoFree;
    var k :| 0 <= k < |heap.v.blocks| && heap.v.blocks[k] == b;
    M.NextIsEnd(heap.q, heap.v, heap.poolSize - M.ITEM, {}, k);
    assert InBlock(heap.v.blocks[k], q, heap.q.bytes[q..q + size], heap.q.bytes, M.ITEM);
  }

  method ActRealloc(heap: M.MemHeap, p: int, size: nat, held: Held) returns (held': Held)
    requires heap.Valid() && Holding(heap, held)
    modifies heap
    ensures heap.Valid() && Holding(heap, held')
    ensures Did(ReallocOp(p, size), old(PictureOf(heap)), held, PictureOf(heap), held')
  {
    hide M.Sound, Spared, KeptIn, Keeps, Outcome, Resized, Did, WasFree, SamePrefix;
    held' := held;
    if p !in held {
      DidNothing(p, size, PictureOf(heap), held);
      return;
    }
    ghost var s, was, bytes, top := PictureOf(heap), heap.v.blocks, heap.q.bytes, heap.poolSize - M.ITEM;
    IsTiling(heap);
    ghost var i := BlockOf(held, was, bytes, M.ITEM, p);
    ghost var n := if |held[p]| < size then |held[p]| else size;
    ghost var j;
    var q;
    q, j := Reallocate(heap, i, p, size, n);
    OthersKept(held, was, bytes, heap.v.blocks, heap.q.bytes, M.ITEM, i);
    if size == 0 {
      held' := held - {p};
    } else if q.None? {
      NothingChanged(s, i, j, p, size, q, PictureOf(heap));
    } else {
      if q.value != p { NotHeldYet(held, was, bytes, top, j, q.value); }
      var content := heap.q.bytes[q.value..q.value + size];
      OneMore(held - {p}, heap.v.blocks, heap.q.bytes, M.ITEM, q.value, content);
      PrefixKept(held[p], content, bytes, heap.q.bytes, p, q.value, n);
      ResizedIs(held, p, q.value, content);
      held' := (held - {p})[q.value := content];
    }
    DidRealloc(s, i, j, p, size, q, held, PictureOf(heap), held',
               if q.Some? then heap.q.bytes[q.value..q.value + size] else []);
  }

  lemma NothingChanged(s: Picture, i: nat, j: nat, p: int, size: nat, q: Option<int>, s': Picture)
    requires Outcome(s, i, j, p, size, q, s') && size > 0 && q.None?
    ensures s' == s
  {
  }

  lemma NotHeldYet(held: Held, blocks: Blocks, bytes: Bytes, top: int, j: nat, q: int)
    requires Keeps(held, blocks, bytes, M.ITEM) && Tiling(blocks, top, M.ITEM) && WasFree(blocks, j, q)
    ensures q !in held
  {
    hide Keeps, Tiling;
    FreeNotHeld(held, blocks, bytes, M.ITEM, top, j);
  }

  lemma DidNothing(p: int, size: nat, s: Picture, held: Held)
    requires p !in held
    ensures Did(ReallocOp(p, size), s, held, s, held)
  {
  }

  lemma DidRealloc(s: Picture, i: nat, j: nat, p: int, size: nat, q: Option<int>, held: Held,
                   s': Picture, held': Held, content: Bytes)
    requires p in held && Outcome(s, i, j, p, size, q, s')
    requires if size == 0 then held' == held - {p}
             else if q.None? then held' == held
             else Resized(held, held', p, size, q.value, content)
    ensures Did(ReallocOp(p, size), s, held, s', held')
  {
    hide Resized, M.Resized, TurnsDown, Coalesced, Released;
    if size == 0 {
      assert GaveBack(s, i, p, held, s', held');
    } else if q.Some? {
      assert GotSize(s, i, j, p, size, q.value, content, held, s', held');
    }
  }

  // ----- nothing is lost -----

  lemma UsedGave(bs: Blocks, top: int, i: nat, size: nat) returns (new_: Block)
    requires Tiling(bs, top, M.ITEM) && i < |bs| && !bs[i].used
    ensures new_.at == bs[i].at && new_.used && Used(M.Given(bs, i, size)) == Used(bs) + {new_}
  {
    hide Tiling, Used, M.Given;
    M.GivenIs(bs, i, size);
    var cut := bs[i].at + M.ITEM + size;
    var split := cut + M.ITEM + M.MINI_ALLOC <= bs[i].end;
    new_ := Block(bs[i].at, if split then cut else bs[i].end, true);
    UsedGiven(bs, top, M.ITEM, i, if split then [new_, Block(cut, bs[i].end, false)] else [new_]);
  }

  lemma GivenTiling(bs: Blocks, top: int, i: nat, size: nat)
    requires Tiling(bs, top, M.ITEM) && i < |bs| && size % RT_ALIGN_SIZE == 0
    ensures Tiling(M.Given(bs, i, size), top, M.ITEM)
  {
    hide M.Given, Aligned, Adjacent, AllAligned, Tiling;
    M.GivenIs(bs, i, size);
    var mid := Halves(bs[i], bs[i].at + M.ITEM + size);
    assert M.Given(bs, i, size) == Replace(bs, i, i + 1, mid);
    hide Halves, Replace;
    OneAligned(bs, top, i);
    HalvesTile(bs[i], size);
    ReplaceTiling(bs, top, M.ITEM, i, i + 1, mid);
  }

  ghost function Halves(b: Block, cut: int): (mid: Blocks) {
    if cut + M.ITEM + M.MINI_ALLOC <= b.end then [Block(b.at, cut, true), Block(cut, b.end, false)]
    else [Block(b.at, b.end, true)]
  }

  lemma OneAligned(bs: Blocks, top: int, i: nat)
    requires Tiling(bs, top, M.ITEM) && i < |bs|
    ensures Aligned(bs[i], M.ITEM)
  {
  }

  lemma HalvesTile(b: Block, size: nat)
    requires Aligned(b, M.ITEM) && size % RT_ALIGN_SIZE == 0
    ensures var mid := Halves(b, b.at + M.ITEM + size);
            && 1 <= |mid| <= 2 && mid[0].at == b.at && mid[|mid| - 1].end == b.end
            && AllAligned(mid, M.ITEM) && Adjacent(mid)
  {
  }

  lemma BackedGaveBack(s: Picture, i: nat, p: int, held: Held, s': Picture, held': Held, top: int, others: set<Block>)
    requires Backed(held, s.v.blocks, others, M.ITEM) && Tiling(s.v.blocks, top, M.ITEM)
    requires p in held && GaveBack(s, i, p, held, s', held')
    ensures Backed(held', s'.v.blocks, others, M.ITEM)
  {
    hide Tiling, Backed, Used, Coalesced, Released;
    UsedFreed(s.v.blocks, top, M.ITEM, i);
    BackedFreed(held, s.v.blocks, s'.v.blocks, others, M.ITEM, top, i);
  }

  lemma BackedGotSize(s: Picture, i: nat, j: nat, p: int, size: nat, q: int, content: Bytes, held: Held,
                      s': Picture, held': Held, top: int, others: set<Block>)
    requires Backed(held, s.v.blocks, others, M.ITEM) && Tiling(s.v.blocks, top, M.ITEM)
    requires GotSize(s, i, j, p, size, q, content, held, s', held')
    ensures Backed(held', s'.v.blocks, others, M.ITEM)
  {
    M.RoundedIs(size);
    hide Tiling, Backed, Used, M.Moved, M.Grown, M.Shrunk, M.Rounded, SamePrefix;
    var bs, n := s.v.blocks, M.Rounded(size);
    if M.Relocates(bs, i, n) {
      BackedMoved(bs, i, j, n, held, content, top, others);
      if q == p { OneAt(bs, top, M.ITEM, bs[i], bs[j]); }
      assert (held - {p})[q := content] == held[q := content] - {p};
    } else {
      var new_ := UsedResized(s.q, s.v, top, i, j, n, q, s'.v.blocks);
      BackedChanged(held, bs, s'.v.blocks, others, M.ITEM, top, i, new_, content);
    }
  }

  lemma UsedResized(q: M.Fields, v: M.View, top: int, i: nat, j: nat, n: nat, p: int, bs': Blocks)
    returns (new_: Block)
    requires Tiling(v.blocks, top, M.ITEM) && i < |v.blocks| && v.blocks[i].used
    requires M.Resized(q, v, i, j, n, p, bs') && !M.Relocates(v.blocks, i, n)
    ensures new_.at == v.blocks[i].at && Used(bs') == Used(v.blocks) - {v.blocks[i]} + {new_}
  {
    hide Tiling, Used, M.Grown, M.Shrunk, M.Moved;
    var bs := v.blocks;
    var cut := bs[i].at + M.ITEM + n;
    if M.Grows(bs, i, n) {
      M.GrownIs(bs, i, n);
      new_ := UsedCut(bs, top, i, i + 1, cut);
    } else if n + M.ITEM + M.MINI_ALLOC < M.SizeOf(bs[i]) {
      M.ShrunkIs(bs, i, n);
      new_ := UsedCut(bs, top, i, if i + 1 < |bs| && !bs[i + 1].used then i + 1 else i, cut);
    } else {
      new_ := bs[i];
      UsedSame(bs, i);
    }
  }

  /** Block `i` ends at `cut`, and a free block takes the rest up to the end of block `l`. */
  lemma UsedCut(bs: Blocks, top: int, i: nat, l: nat, cut: int) returns (new_: Block)
    requires Tiling(bs, top, M.ITEM) && i <= l < |bs| && l <= i + 1 && bs[i].used && (l == i + 1 ==> !bs[l].used)
    ensures new_ == Block(bs[i].at, cut, true)
    ensures Used(bs[..i] + [new_, Block(cut, bs[l].end, false)] + bs[l + 1..]) == Used(bs) - {bs[i]} + {new_}
  {
    hide Tiling, Used;
    new_ := Block(bs[i].at, cut, true);
    var rest := Block(cut, bs[l].end, false);
    UsedChanged(bs, top, M.ITEM, i, i, l, [new_, rest]);
    UsedFew(new_, rest);
    UsedFew(rest, rest);
  }

  lemma BackedMoved(bs: Blocks, i: nat, j: nat, n: nat, held: Held, content: Bytes, top: int, others: set<Block>)
    requires Backed(held, bs, others, M.ITEM) && Tiling(bs, top, M.ITEM) && n % RT_ALIGN_SIZE == 0
    requires i < |bs| && bs[i].used && bs[i].at + M.ITEM in held && j < |bs| && !bs[j].used
    ensures Backed(held[bs[j].at + M.ITEM := content] - {bs[i].at + M.ITEM}, M.Moved(bs, i, j, n), others, M.ITEM)
  {
    hide Tiling, Backed, Used, Coalesced, Released, M.Given;
    var given := M.Given(bs, j, n);
    var i' := M.GivenKeeps(bs, j, n, i);
    GivenTiling(bs, top, j, n);
    var new_ := UsedGave(bs, top, j, n);
    BackedGiven(held, bs, given, others, M.ITEM, top, j, new_, content);
    UsedFreed(given, top, M.ITEM, i');
    BackedFreed(held[new_.at + M.ITEM := content], given, M.Moved(bs, i, j, n), others, M.ITEM, top, i');
  }

  /** Whatever a client does, a used block is one that others use or one whose pointer the client holds. */
  lemma BackedStep(op: Op, s: Picture, held: Held, s': Picture, held': Held, top: int, others: set<Block>)
    requires Backed(held, s.v.blocks, others, M.ITEM) && Tiling(s.v.blocks, top, M.ITEM)
    requires Did(op, s, held, s', held')
    ensures Backed(held', s'.v.blocks, others, M.ITEM)
  {
    hide Tiling, Backed, GaveBack, GotSize, M.HasRoom, TurnsDown, M.Given, Used;
    if !Same(s, held, s', held') {
      match op
      case MallocOp(content) =>
        var i :| Took(s, i, content, held, s', held');
        var new_ := UsedGave(s.v.blocks, top, i, M.Rounded(|content|));
        BackedGiven(held, s.v.blocks, s'.v.blocks, others, M.ITEM, top, i, new_, content);
      case FreeOp(p) =>
        var i :| GaveBack(s, i, p, held, s', held');
        BackedGaveBack(s, i, p, held, s', held', top, others);
      case ReallocOp(p, size) =>
        if size == 0 {
          var i :| GaveBack(s, i, p, held, s', held');
          BackedGaveBack(s, i, p, held, s', held', top, others);
        } else {
          var i, j, q, content :| GotSize(s, i, j, p, size, q, content, held, s', held');
          BackedGotSize(s, i, j, p, size, q, content, held, s', held', top, others);
        }
    }
  }

  method Act(heap: M.MemHeap, op: Op, held: Held) returns (held': Held)
    requires heap.Valid() && Holding(heap, held)
    modifies heap
    ensures heap.Valid() && Holding(heap, held') && Did(op, old(PictureOf(heap)), held, PictureOf(heap), held')
  {
    hide M.Sound, Did, Keeps;
    match op
    case MallocOp(content) => held' := ActMalloc(heap, content, held);
    case FreeOp(p) => held' := ActFree(heap, p, held);
    case ReallocOp(p, size) => held' := ActRealloc(heap, p, size, held);
  }

  /**
   Any run of a client that frees and resizes only what it holds: each operation does what it says, every
   pointer the client holds stays allocated, with the bytes behind it, and no two overlap.  Nothing is
   lost: a client that has given everything back leaves the heap's blocks as it found them.
   */
  method Run(heap: M.MemHeap, ops: seq<Op>)
    returns (held: Held, ghost history: seq<Held>, ghost pictures: seq<Picture>)
    requires heap.Valid()
    modifies heap
    ensures heap.Valid()
    ensures |history| == |pictures| == |ops| + 1 && history[0] == map[] && history[|ops|] == held
    ensures pictures[0] == old(PictureOf(heap)) && pictures[|ops|] == PictureOf(heap)
    ensures forall i :: 0 <= i < |ops| ==> Did(ops[i], pictures[i], history[i], pictures[i + 1], history[i + 1])
    ensures Holding(heap, held) && forall a, b :: a in held && b in held && a < b ==> a + |held[a]| <= b
    ensures Backed(held, heap.v.blocks, Used(old(heap.v.blocks)), M.ITEM)
    ensures held == map[] ==> heap.v.blocks == old(heap.v.blocks) && heap.q.available == old(heap.q.available)
  {
    hide M.Sound, Did, KeptIn, Backed, Used;
    held := map[];
    history, pictures := [held], [PictureOf(heap)];
    ghost var others := Used(heap.v.blocks);
    NothingBacked(heap.v.blocks, M.ITEM);
    IsTiling(heap);
    for i := 0 to |ops|
      invariant heap.Valid() && Holding(heap, held)
      invariant |history| == |pictures| == i + 1 && history[0] == map[] && history[i] == held
      invariant pictures[0] == old(PictureOf(heap)) && pictures[i] == PictureOf(heap)
      invariant forall k :: 0 <= k < i ==> Did(ops[k], pictures[k], history[k], pictures[k + 1], history[k + 1])
      invariant Backed(held, heap.v.blocks, others, M.ITEM)
    {
      ghost var s, before := PictureOf(heap), held;
      IsTiling(heap);
      held := Act(heap, ops[i], held);
      BackedStep(ops[i], s, before, PictureOf(heap), held, heap.poolSize - M.ITEM, others);
      history, pictures := history + [held], pictures + [PictureOf(heap)];
    }
    IsTiling(heap);
    forall a, b | a in held && b in held && a < b
      ensures a + |held[a]| <= b
    {
      HeldApart(held, heap.v.blocks, heap.q.bytes, M.ITEM, heap.poolSize - M.ITEM, a, b);
    }
    if held == map[] { AsItWas(old(heap.v.blocks), heap.v.blocks, M.ITEM, heap.poolSize - M.ITEM); }
  }
}
