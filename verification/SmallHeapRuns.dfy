/** Every run of a client of the small-memory heap: what it holds stays allocated, apart, and unchanged. */
module SmallHeapRuns {
  import opened Lists
  import opened HeapBlocks
  import opened HeapClients
  import H = SmallHeap

  /** The blocks of a heap, and where its search starts. */
  datatype Picture = Picture(blocks: Blocks, lf: nat)

  ghost function PictureOf(heap: H.Heap): (s: Picture)
    reads heap
  {
    Picture(heap.blocks, heap.lf)
  }

  ghost predicate Begins(blocks: Blocks, i: nat, p: int) {
    i < |blocks| && blocks[i].used && blocks[i].at + H.HEADER == p
  }

  /** A request takes the first block that has room for it. */
  ghost predicate Took(s: Picture, i: nat, content: Bytes, held: Held, s': Picture, held': Held) {
    && H.FirstFit(s.blocks, s.lf, H.Padded(|content|), i)
    && s'.blocks == H.Allotted(s.blocks, i, H.Padded(|content|))
    && s.blocks[i].at + H.HEADER !in held && held' == held[s.blocks[i].at + H.HEADER := content]
  }

  ghost predicate Same(s: Picture, held: Held, s': Picture, held': Held) {
    s'.blocks == s.blocks && held' == held
  }

  ghost predicate GaveBack(s: Picture, i: nat, p: int, held: Held, s': Picture, held': Held) {
    Begins(s.blocks, i, p) && s'.blocks == Coalesced(Released(s.blocks, i), i) && held' == held - {p}
  }

  /** Block `i` is left alone, cut or moved, and its bytes go with it. */
  ghost predicate GotSize(s: Picture, i: nat, j: nat, p: int, size: nat, q: int, content: Bytes, held: Held,
                          s': Picture, held': Held) {
    && Begins(s.blocks, i, p) && H.Resized(s.blocks, s.lf, i, j, H.AlignUp(size), q, s'.blocks)
    && Resized(held, held', p, size, q, content)
  }

  ghost predicate TurnsDown(s: Picture, i: nat, p: int, size: nat, memSize: nat) {
    && Begins(s.blocks, i, p)
    && (|| H.AlignUp(size) > memSize
        || (H.Relocates(s.blocks[i], H.AlignUp(size)) && H.Refused(s.blocks, s.lf, memSize, H.AlignUp(size))))
  }

  /** What each operation does to the blocks and to what the client holds, and when it is turned down. */
  ghost predicate Did(op: Op, s: Picture, held: Held, s': Picture, held': Held, memSize: nat) {
    match op
    case MallocOp(content) =>
      if H.Refused(s.blocks, s.lf, memSize, |content|) then Same(s, held, s', held')
      else exists i :: Took(s, i, content, held, s', held')
    case FreeOp(p) =>
      if p in held then exists i :: GaveBack(s, i, p, held, s', held') else Same(s, held, s', held')
    case ReallocOp(p, size) =>
      if p !in held then Same(s, held, s', held')
      else if size == 0 then exists i :: GaveBack(s, i, p, held, s', held')
      else
        || (Same(s, held, s', held') && exists i :: TurnsDown(s, i, p, size, memSize))
        || (exists i, j, q, content ::
              !TurnsDown(s, i, p, size, memSize) && GotSize(s, i, j, p, size, q, content, held, s', held'))
  }

  lemma KeptSpares(blocks: Blocks, bytes: Bytes, blocks': Blocks, bytes': Bytes, except: int)
    requires |bytes'| == |bytes|
    requires forall i :: 0 <= i < |blocks| && blocks[i].used && i != except ==> blocks[i] in blocks'
    requires forall i, k :: 0 <= i < |blocks| && i != except && H.HoldsByte(blocks[i], k) && 0 <= k < |bytes| ==>
               bytes'[k] == bytes[k]
    ensures Spared(blocks, bytes, blocks', bytes', H.HEADER, except)
  {
    forall i | 0 <= i < |blocks| && i != except && blocks[i].used
      ensures SameBytes(blocks[i], bytes, bytes', H.HEADER)
    {
      assert forall k :: blocks[i].at + H.HEADER <= k < blocks[i].end ==> H.HoldsByte(blocks[i], k);
    }
  }

  /** The client writes into a block of its own. */
  method Fill(heap: H.Heap, ghost i: nat, p: int, content: Bytes)
    requires heap.Valid() && i < |heap.blocks| && heap.blocks[i].used
    requires p == heap.blocks[i].at + H.HEADER && p + |content| <= heap.blocks[i].end
    modifies heap.data
    ensures heap.Valid()
    ensures Spared(heap.blocks, old(heap.data[..]), heap.blocks, heap.data[..], H.HEADER, i)
    ensures KeptIn(heap.blocks, p, content, heap.data[..], H.HEADER)
  {
    hide Tiling, H.Mirror, NoTwoFree, UsedTotal, Spared, SameBytes;
    H.HeaderFacts(heap.headers, heap.blocks, heap.Top(), i);
    for k := 0 to |content|
      invariant forall x :: p <= x < p + k ==> heap.data[x] == content[x - p]
      invariant forall x :: 0 <= x < heap.data.Length && !(p <= x < p + k) ==> heap.data[x] == old(heap.data[x])
    {
      heap.data[p + k] := content[k];
    }
    WriteSpares(heap.blocks, old(heap.data[..]), heap.data[..], H.HEADER, heap.Top(), i, p, |content|);
    assert heap.data[..][p..p + |content|] == content;
    assert InBlock(heap.blocks[i], p, content, heap.data[..], H.HEADER);
  }

  ghost predicate Holding(heap: H.Heap, held: Held)
    reads heap, heap.data
  {
    Keeps(held, heap.blocks, heap.data[..], H.HEADER) && forall p :: p in held ==> held[p] != []
  }

  method Request(heap: H.Heap, size: nat) returns (p: Option<int>, ghost i: nat)
    requires heap.Valid()
    modifies heap, heap.data
    ensures heap.Valid() && heap.data == old(heap.data)
    ensures Spared(old(heap.blocks), old(heap.data[..]), heap.blocks, heap.data[..], H.HEADER, -1)
    ensures p.None? <==> H.Refused(old(heap.blocks), old(heap.lf), heap.memSize, size)
    ensures p.None? ==> heap.blocks == old(heap.blocks)
    ensures p.Some? ==>
              && H.FirstFit(old(heap.blocks), old(heap.lf), H.Padded(size), i)
              && heap.blocks == H.Allotted(old(heap.blocks), i, H.Padded(size))
    ensures p.Some? ==>
              && size > 0 && i < |old(heap.blocks)| && !old(heap.blocks)[i].used
              && p.value == old(heap.blocks)[i].at + H.HEADER
              && i < |heap.blocks| && heap.blocks[i].used && heap.blocks[i].at + H.HEADER == p.value
              && p.value + size <= heap.blocks[i].end
  {
    hide Tiling, H.Mirror, NoTwoFree, UsedTotal, Spared, H.Allotted, H.AlignUp, H.HoldsByte;
    ghost var was, bytes := heap.blocks, heap.data[..];
    p, i := heap.Malloc(size);
    KeptSpares(was, bytes, heap.blocks, heap.data[..], -1);
    if p.Some? {
      H.AllottedShape(was, i, H.Padded(size));
      H.AlignedUp(size);
    }
  }

  method ActMalloc(heap: H.Heap, content: Bytes, held: Held) returns (held': Held)
    requires heap.Valid() && Holding(heap, held)
    modifies heap, heap.data
    ensures heap.Valid() && heap.data == old(heap.data) && Holding(heap, held')
    ensures Did(MallocOp(content), old(PictureOf(heap)), held, PictureOf(heap), held', heap.memSize)
  {
    hide Tiling, H.Mirror, NoTwoFree, UsedTotal, Spared, KeptIn, Keeps, H.Refused, H.FirstFit, H.Allotted;
    ghost var s := PictureOf(heap);
    ghost var was, bytes := heap.blocks, heap.data[..];
    var p;
    ghost var i;
    p, i := Request(heap, |content|);
    OthersKept(held, was, bytes, heap.blocks, heap.data[..], H.HEADER, -1);
    assert held - {} == held;
    if p.None? { return held; }
    FreeNotHeld(held, was, bytes, H.HEADER, heap.Top(), i);
    ghost var bytes' := heap.data[..];
    Fill(heap, i, p.value, content);
    OthersKept(held, heap.blocks, bytes', heap.blocks, heap.data[..], H.HEADER, i);
    assert held - {p.value} == held;
    OneMore(held, heap.blocks, heap.data[..], H.HEADER, p.value, content);
    held' := held[p.value := content];
    assert Took(s, i, content, held, PictureOf(heap), held');
  }

  method Release(heap: H.Heap, ghost i: nat, p: int)
    requires heap.Valid() && i < |heap.blocks| && heap.blocks[i].used && p == heap.blocks[i].at + H.HEADER < heap.Top()
    modifies heap, heap.data
    ensures heap.Valid() && heap.data == old(heap.data)
    ensures Spared(old(heap.blocks), old(heap.data[..]), heap.blocks, heap.data[..], H.HEADER, i)
    ensures heap.blocks == Coalesced(Released(old(heap.blocks), i), i)
  {
    hide Tiling, H.Mirror, NoTwoFree, UsedTotal, Spared, Coalesced, Released, H.HoldsByte;
    ghost var was, bytes := heap.blocks, heap.data[..];
    H.HeaderFacts(heap.headers, was, heap.Top(), i);
    heap.Free(Some(p), i);
    KeptSpares(was, bytes, heap.blocks, heap.data[..], i);
  }

  method ActFree(heap: H.Heap, p: int, held: Held) returns (held': Held)
    requires heap.Valid() && Holding(heap, held)
    modifies heap, heap.data
    ensures heap.Valid() && heap.data == old(heap.data) && Holding(heap, held')
    ensures Did(FreeOp(p), old(PictureOf(heap)), held, PictureOf(heap), held', heap.memSize)
  {
    hide Tiling, H.Mirror, NoTwoFree, UsedTotal, Spared, KeptIn, Keeps, Coalesced, Released;
    held' := held - {p};
    if p !in held {
      assert held' == held;
      return;
    }
    ghost var s := PictureOf(heap);
    ghost var was, bytes := heap.blocks, heap.data[..];
    ghost var i := BlockOf(held, was, bytes, H.HEADER, p);
    HeldInside(held, was, bytes, heap.headers, heap.Top(), p, i);
    Release(heap, i, p);
    OthersKept(held, was, bytes, heap.blocks, heap.data[..], H.HEADER, i);
    assert GaveBack(s, i, p, held, PictureOf(heap), held');
  }

  lemma HeldInside(held: Held, blocks: Blocks, bytes: Bytes, headers: map<int, H.Header>, top: int, p: int, i: nat)
    requires Keeps(held, blocks, bytes, H.HEADER) && Tiling(blocks, top, H.HEADER) && H.Mirror(headers, blocks, top)
    requires p in held && held[p] != [] && i < |blocks| && InBlock(blocks[i], p, held[p], bytes, H.HEADER)
    ensures 0 <= p < top
  {
    H.HeaderFacts(headers, blocks, top, i);
  }

  method Reallocate(heap: H.Heap, ghost i: nat, p: int, size: nat) returns (q: Option<int>, ghost j: nat, ghost m: nat)
    requires heap.Valid() && i < |heap.blocks| && heap.blocks[i].used && p == heap.blocks[i].at + H.HEADER < heap.Top()
    modifies heap, heap.data
    ensures heap.Valid() && heap.data == old(heap.data) && (size == 0 ==> q.None?)
    ensures var except := if size > 0 && q.None? then -1 else i;
            Spared(old(heap.blocks), old(heap.data[..]), heap.blocks, heap.data[..], H.HEADER, except)
    ensures Outcome(old(PictureOf(heap)), i, j, p, size, heap.memSize, q, heap.blocks)
    ensures q.Some? ==> WasFree(old(heap.blocks), j, q.value) || q.value == p
    ensures q.Some? ==> heap.Holds(q.value, size) && (m >= size || p + m == old(heap.blocks)[i].end)
    ensures q.Some? ==> H.SameText(old(heap.data[..]), heap.data[..], q.value, p, m)
  {
    hide Tiling, H.Mirror, NoTwoFree, UsedTotal, Spared, Coalesced, Released, H.HoldsByte, H.Allotted, H.Moved,
         H.Shrunk, H.Refused, H.AlignUp, H.Resized, H.FirstFit, H.Relocates, H.Heap.Holds,
         H.SameText, Outcome;
    ghost var was, bytes := heap.blocks, heap.data[..];
    H.HeaderFacts(heap.headers, was, heap.Top(), i);
    H.AlignedUp(size);
    m := if was[i].end - p < H.AlignUp(size) then was[i].end - p else H.AlignUp(size);
    q, j := heap.Realloc(Some(p), i, size);
    OutcomeIs(Picture(was, old(heap.lf)), i, j, p, size, heap.memSize, q, heap.blocks);
    KeptSpares(was, bytes, heap.blocks, heap.data[..], if size > 0 && q.None? then -1 else i);
    if q.Some? { WhereTo(was, old(heap.lf), i, j, H.AlignUp(size), q.value, heap.blocks); }
  }

  ghost predicate WasFree(blocks: Blocks, j: nat, q: int) {
    j < |blocks| && !blocks[j].used && q == blocks[j].at + H.HEADER
  }

  /** What comes of resizing block `i`. */
  ghost predicate Outcome(s: Picture, i: nat, j: nat, p: int, size: nat, memSize: nat, q: Option<int>,
                          blocks': Blocks)
  {
    && Begins(s.blocks, i, p)
    && if size == 0 then blocks' == Coalesced(Released(s.blocks, i), i)
       else
         && (q.None? <==> TurnsDown(s, i, p, size, memSize))
         && (q.None? ==> blocks' == s.blocks)
         && (q.Some? ==> H.Resized(s.blocks, s.lf, i, j, H.AlignUp(size), q.value, blocks'))
  }

  lemma OutcomeIs(s: Picture, i: nat, j: nat, p: int, size: nat, memSize: nat, q: Option<int>, blocks': Blocks)
    requires Begins(s.blocks, i, p)
    requires var n := H.AlignUp(size);
             q.None? <==>
               n == 0 || n > memSize || (H.Relocates(s.blocks[i], n) && H.Refused(s.blocks, s.lf, memSize, n))
    requires q.None? && size > 0 ==> blocks' == s.blocks
    requires size == 0 ==> blocks' == Coalesced(Released(s.blocks, i), i)
    requires q.Some? ==> H.Resized(s.blocks, s.lf, i, j, H.AlignUp(size), q.value, blocks')
    ensures Outcome(s, i, j, p, size, memSize, q, blocks')
  {
    H.AlignedUp(size);
    hide H.Resized, H.Refused, H.Relocates, H.AlignUp, Coalesced, Released;
  }

  method ChangeSize(heap: H.Heap, ghost i: nat, p: int, size: nat, ghost n: nat) returns (q: Option<int>, ghost j: nat)
    requires heap.Valid() && i < |heap.blocks| && heap.blocks[i].used && p == heap.blocks[i].at + H.HEADER < heap.Top()
    requires n <= size && p + n <= heap.blocks[i].end
    modifies heap, heap.data
    ensures heap.Valid() && heap.data == old(heap.data) && (size == 0 ==> q.None?)
    ensures var except := if size > 0 && q.None? then -1 else i;
            Spared(old(heap.blocks), old(heap.data[..]), heap.blocks, heap.data[..], H.HEADER, except)
    ensures Outcome(old(PictureOf(heap)), i, j, p, size, heap.memSize, q, heap.blocks)
    ensures q.Some? ==> WasFree(old(heap.blocks), j, q.value) || q.value == p
    ensures q.Some? ==>
              && 0 <= q.value && q.value + size <= heap.data.Length && 0 <= p && p + n <= heap.data.Length
              && KeptIn(heap.blocks, q.value, heap.data[..][q.value..q.value + size], heap.data[..], H.HEADER)
              && heap.data[..][q.value..q.value + n] == old(heap.data[..])[p..p + n]
  {
    hide Tiling, H.Mirror, NoTwoFree, UsedTotal, Spared, KeptIn, Outcome;
    ghost var bytes, m := heap.data[..], 0;
    q, j, m := Reallocate(heap, i, p, size);
    if q.Some? {
      HasBytes(heap.headers, heap.blocks, heap.Top(), heap.data[..], q.value, size);
      ShorterPrefix(heap.data[..], bytes, q.value, p, m, n);
    }
  }

  /** A block stays where it is, or what it holds goes to a block that was free. */
  lemma WhereTo(blocks: Blocks, from: nat, i: nat, j: nat, n: nat, q: int, blocks': Blocks)
    requires i < |blocks| && H.Resized(blocks, from, i, j, n, q, blocks')
    ensures q == blocks[i].at + H.HEADER || WasFree(blocks, j, q)
  {
  }

  lemma HasBytes(headers: map<int, H.Header>, blocks: Blocks, top: int, bytes: Bytes, q: int, size: nat)
    requires Tiling(blocks, top, H.HEADER) && H.Mirror(headers, blocks, top) && top <= |bytes|
    requires exists b :: b in blocks && b.used && b.at + H.HEADER == q && b.end - q >= size
    ensures 0 <= q && q + size <= |bytes| && KeptIn(blocks, q, bytes[q..q + size], bytes, H.HEADER)
  {
    hide Tiling, H.Mirror;
    var b :| b in blocks && b.used && b.at + H.HEADER == q && b.end - q >= size;
    var k :| 0 <= k < |blocks| && blocks[k] == b;
    H.HeaderFacts(headers, blocks, top, k);
    assert InBlock(blocks[k], q, bytes[q..q + size], bytes, H.HEADER);
  }

  method ActRealloc(heap: H.Heap, p: int, size: nat, held: Held) returns (held': Held)
    requires heap.Valid() && Holding(heap, held)
    modifies heap, heap.data
    ensures heap.Valid() && heap.data == old(heap.data) && Holding(heap, held')
    ensures Did(ReallocOp(p, size), old(PictureOf(heap)), held, PictureOf(heap), held', heap.memSize)
  {
    hide Tiling, H.Mirror, NoTwoFree, UsedTotal, Spared, KeptIn, Keeps, Outcome, Resized, Did, WasFree, SamePrefix;
    held' := held;
    if p !in held {
      DidNothing(p, size, PictureOf(heap), held, heap.memSize);
      return;
    }
    ghost var s, was, bytes := PictureOf(heap), heap.blocks, heap.data[..];
    ghost var i := BlockOf(held, was, bytes, H.HEADER, p);
    HeldInside(held, was, bytes, heap.headers, heap.Top(), p, i);
    ghost var n := if |held[p]| < size then |held[p]| else size;
    ghost var j;
    var q;
    q, j := ChangeSize(heap, i, p, size, n);
    ghost var bytes' := heap.data[..];
    OthersKept(held, was, bytes, heap.blocks, bytes', H.HEADER, if size > 0 && q.None? then -1 else i);
    if size == 0 {
      held' := held - {p};
    } else if q.None? {
      assert held - {} == held;
    } else {
      if q.value != p { NotHeldYet(held, was, bytes, heap.Top(), j, q.value); }
      var content := heap.data[q.value..q.value + size];
      assert content == bytes'[q.value..q.value + size];
      OneMore(held - {p}, heap.blocks, bytes', H.HEADER, q.value, content);
      PrefixKept(held[p], content, bytes, bytes', p, q.value, n);
      ResizedIs(held, p, q.value, content);
      held' := (held - {p})[q.value := content];
    }
    DidRealloc(s, i, j, p, size, heap.memSize, q, held, PictureOf(heap), held',
               if q.Some? then bytes'[q.value..q.value + size] else []);
  }

  lemma NotHeldYet(held: Held, blocks: Blocks, bytes: Bytes, top: int, j: nat, q: int)
    requires Keeps(held, blocks, bytes, H.HEADER) && Tiling(blocks, top, H.HEADER) && WasFree(blocks, j, q)
    ensures q !in held
  {
    hide Keeps, Tiling;
    FreeNotHeld(held, blocks, bytes, H.HEADER, top, j);
  }

  lemma DidNothing(p: int, size: nat, s: Picture, held: Held, memSize: nat)
    requires p !in held
    ensures Did(ReallocOp(p, size), s, held, s, held, memSize)
  {
  }

  lemma DidRealloc(s: Picture, i: nat, j: nat, p: int, size: nat, memSize: nat, q: Option<int>, held: Held,
                   s': Picture, held': Held, content: Bytes)
    requires p in held && Outcome(s, i, j, p, size, memSize, q, s'.blocks)
    requires if size == 0 then held' == held - {p}
             else if q.None? then held' == held
             else Resized(held, held', p, size, q.value, content)
    ensures Did(ReallocOp(p, size), s, held, s', held', memSize)
  {
    hide Resized, H.Resized, TurnsDown, Coalesced, Released;
    if size == 0 {
      assert GaveBack(s, i, p, held, s', held');
    } else if q.Some? {
      assert GotSize(s, i, j, p, size, q.value, content, held, s', held');
    }
  }

  // ----- nothing is lost -----

  lemma BackedTook(s: Picture, i: nat, content: Bytes, held: Held, s': Picture, held': Held, top: int,
                   others: set<Block>)
    requires Backed(held, s.blocks, others, H.HEADER) && Tiling(s.blocks, top, H.HEADER)
    requires Took(s, i, content, held, s', held')
    ensures Backed(held', s'.blocks, others, H.HEADER)
  {
    hide Tiling, Backed, Used, H.Allotted;
    var new_ := UsedAllotted(s.blocks, top, i, H.Padded(|content|));
    BackedGiven(held, s.blocks, s'.blocks, others, H.HEADER, top, i, new_, content);
  }

  lemma UsedAllotted(bs: Blocks, top: int, i: nat, size: nat) returns (new_: Block)
    requires Tiling(bs, top, H.HEADER) && i < |bs| && H.Fits(bs[i], size)
    ensures new_.at == bs[i].at && new_.used && Used(H.Allotted(bs, i, size)) == Used(bs) + {new_}
  {
    hide Tiling, Used;
    H.AllottedIs(bs, i, size);
    var cut := bs[i].at + H.HEADER + size;
    var split := cut + H.HEADER + H.MIN_SIZE_ALIGNED <= bs[i].end;
    hide H.Allotted;
    new_ := Block(bs[i].at, if split then cut else bs[i].end, true);
    UsedGiven(bs, top, H.HEADER, i, if split then [new_, Block(cut, bs[i].end, false)] else [new_]);
  }

  lemma BackedGaveBack(s: Picture, i: nat, p: int, held: Held, s': Picture, held': Held, top: int, others: set<Block>)
    requires Backed(held, s.blocks, others, H.HEADER) && Tiling(s.blocks, top, H.HEADER)
    requires p in held && GaveBack(s, i, p, held, s', held')
    ensures Backed(held', s'.blocks, others, H.HEADER)
  {
    hide Tiling, Backed, Used, Coalesced, Released;
    UsedFreed(s.blocks, top, H.HEADER, i);
    BackedFreed(held, s.blocks, s'.blocks, others, H.HEADER, top, i);
  }

  lemma BackedGotSize(s: Picture, i: nat, j: nat, p: int, size: nat, q: int, content: Bytes, held: Held,
                      s': Picture, held': Held, top: int, others: set<Block>)
    requires Backed(held, s.blocks, others, H.HEADER) && Tiling(s.blocks, top, H.HEADER) && NoTwoFree(s.blocks)
    requires GotSize(s, i, j, p, size, q, content, held, s', held')
    ensures Backed(held', s'.blocks, others, H.HEADER)
  {
    hide Tiling, NoTwoFree, Backed, Used, H.Moved, H.Shrunk, H.AlignUp, SamePrefix;
    var bs, n := s.blocks, H.AlignUp(size);
    if H.Relocates(bs[i], n) {
      BackedMoved(bs, i, j, n, held, content, top, others);
      if q == p { OneAt(bs, top, H.HEADER, bs[i], bs[j]); }
      assert (held - {p})[q := content] == held[q := content] - {p};
    } else {
      var new_ := if H.Cuts(bs[i], n) then Block(bs[i].at, q + n, true) else bs[i];
      UsedResized(bs, top, i, n, s'.blocks, new_);
      BackedChanged(held, bs, s'.blocks, others, H.HEADER, top, i, new_, content);
    }
  }

  lemma UsedResized(bs: Blocks, top: int, i: nat, n: nat, bs': Blocks, new_: Block)
    requires Tiling(bs, top, H.HEADER) && i < |bs| && bs[i].used
    requires var q := bs[i].at + H.HEADER;
             && bs' == (if H.Cuts(bs[i], n) then H.Shrunk(bs, i, q + n) else bs)
             && new_ == (if H.Cuts(bs[i], n) then Block(bs[i].at, q + n, true) else bs[i])
    ensures Used(bs') == Used(bs) - {bs[i]} + {new_}
  {
    hide Tiling, Used, H.Shrunk;
    if !H.Cuts(bs[i], n) {
      UsedSame(bs, i);
    } else {
      var cut := bs[i].at + H.HEADER + n;
      var l := if i + 1 < |bs| && !bs[i + 1].used then i + 1 else i;
      H.ShrunkIs(bs, i, cut);
      var rest := Block(cut, bs[l].end, false);
      UsedChanged(bs, top, H.HEADER, i, i, l, [new_, rest]);
      UsedFew(new_, rest);
      UsedFew(rest, rest);
    }
  }

  lemma BackedMoved(bs: Blocks, i: nat, j: nat, n: nat, held: Held, content: Bytes, top: int, others: set<Block>)
    requires Backed(held, bs, others, H.HEADER) && Tiling(bs, top, H.HEADER) && NoTwoFree(bs)
    requires i < |bs| && bs[i].used && bs[i].at + H.HEADER in held
    requires j < |bs| && H.Fits(bs[j], H.Padded(n))
    ensures Backed(held[bs[j].at + H.HEADER := content] - {bs[i].at + H.HEADER}, H.Moved(bs, i, j, H.Padded(n)), others,
                   H.HEADER)
  {
    hide Tiling, NoTwoFree, Backed, Used, Coalesced, Released, H.Allotted;
    var given := H.Allotted(bs, j, H.Padded(n));
    H.AllottedShape(bs, j, H.Padded(n));
    H.PaddedIsLeast(n);
    H.AllottedGood(bs, top, j, H.Padded(n));
    var new_ := UsedAllotted(bs, top, j, H.Padded(n));
    BackedGiven(held, bs, given, others, H.HEADER, top, j, new_, content);
    var i' := H.NewIndex(bs, given, i, j);
    UsedFreed(given, top, H.HEADER, i');
    BackedFreed(held[new_.at + H.HEADER := content], given, H.Moved(bs, i, j, H.Padded(n)), others, H.HEADER, top, i');
  }

  /** Whatever a client does, a used block is one that others use or one whose pointer the client holds. */
  lemma BackedStep(op: Op, s: Picture, held: Held, s': Picture, held': Held, memSize: nat, top: int,
                   others: set<Block>)
    requires Backed(held, s.blocks, others, H.HEADER) && Tiling(s.blocks, top, H.HEADER) && NoTwoFree(s.blocks)
    requires Did(op, s, held, s', held', memSize)
    ensures Backed(held', s'.blocks, others, H.HEADER)
  {
    hide Tiling, NoTwoFree, Backed, Took, GaveBack, GotSize, H.Refused, TurnsDown;
    if !Same(s, held, s', held') {
      match op
      case MallocOp(content) =>
        var i :| Took(s, i, content, held, s', held');
        BackedTook(s, i, content, held, s', held', top, others);
      case FreeOp(p) =>
        var i :| GaveBack(s, i, p, held, s', held');
        BackedGaveBack(s, i, p, held, s', held', top, others);
      case ReallocOp(p, size) =>
        if size == 0 {
          var i :| GaveBack(s, i, p, held, s', held');
          BackedGaveBack(s, i, p, held, s', held', top, others);
        } else {
          var i, j, q, content :| GotSize(s, i, j, p, size, q, content, held, s', held');
          BackedGotSize(s, i, j, p, size, q, content, held, s', held', top, others);
        }
    }
  }

  method Act(heap: H.Heap, op: Op, held: Held) returns (held': Held)
    requires heap.Valid() && Holding(heap, held)
    modifies heap, heap.data
    ensures heap.Valid() && heap.data == old(heap.data) && Holding(heap, held')
    ensures Did(op, old(PictureOf(heap)), held, PictureOf(heap), held', heap.memSize)
  {
    hide H.Heap.Valid, Did, Keeps;
    match op
    case MallocOp(content) => held' := ActMalloc(heap, content, held);
    case FreeOp(p) => held' := ActFree(heap, p, held);
    case ReallocOp(p, size) => held' := ActRealloc(heap, p, size, held);
  }

  /**
   Any run of a client that frees and resizes only what it holds: each operation does what it says, every
   pointer the client holds stays allocated, with the bytes behind it, and no two overlap.  Nothing is
   lost: a client that has given everything back leaves the heap's blocks as it found them.
   */
  method Run(heap: H.Heap, ops: seq<Op>) returns (held: Held, ghost history: seq<Held>, ghost pictures: seq<Picture>)
    requires heap.Valid()
    modifies heap, heap.data
    ensures heap.Valid() && heap.data == old(heap.data)
    ensures |history| == |pictures| == |ops| + 1 && history[0] == map[] && history[|ops|] == held
    ensures pictures[0] == old(PictureOf(heap)) && pictures[|ops|] == PictureOf(heap)
    ensures forall i :: 0 <= i < |ops| ==>
              Did(ops[i], pictures[i], history[i], pictures[i + 1], history[i + 1], heap.memSize)
    ensures Holding(heap, held) && forall a, b :: a in held && b in held && a < b ==> a + |held[a]| <= b
    ensures Backed(held, heap.blocks, Used(old(heap.blocks)), H.HEADER)
    ensures held == map[] ==> heap.blocks == old(heap.blocks) && heap.usedMem == old(heap.usedMem)
  {
    hide H.Heap.Valid, Did, KeptIn, Backed, Used;
    held := map[];
    history, pictures := [held], [PictureOf(heap)];
    ghost var others := Used(heap.blocks);
    NothingBacked(heap.blocks, H.HEADER);
    IsTiling(heap);
    for i := 0 to |ops|
      invariant heap.Valid() && heap.data == old(heap.data) && Holding(heap, held)
      invariant |history| == |pictures| == i + 1 && history[0] == map[] && history[i] == held
      invariant pictures[0] == old(PictureOf(heap)) && pictures[i] == PictureOf(heap)
      invariant forall k :: 0 <= k < i ==>
                  Did(ops[k], pictures[k], history[k], pictures[k + 1], history[k + 1], heap.memSize)
      invariant Backed(held, heap.blocks, others, H.HEADER)
    {
      ghost var s, before := PictureOf(heap), held;
      IsTiling(heap);
      held := Act(heap, ops[i], held);
      BackedStep(ops[i], s, before, PictureOf(heap), held, heap.memSize, heap.Top(), others);
      history, pictures := history + [held], pictures + [PictureOf(heap)];
    }
    forall a, b | a in held && b in held && a < b
      ensures a + |held[a]| <= b
    {
      ApartIn(heap, held, a, b);
    }
    IsTiling(heap);
    if held == map[] { AsItWas(old(heap.blocks), heap.blocks, H.HEADER, heap.Top()); }
  }

  lemma IsTiling(heap: H.Heap)
    requires heap.Valid()
    ensures Tiling(heap.blocks, heap.Top(), H.HEADER) && NoTwoFree(heap.blocks)
    ensures heap.usedMem == UsedTotal(heap.blocks)
  {
  }

  lemma ApartIn(heap: H.Heap, held: Held, a: int, b: int)
    requires heap.Valid() && Holding(heap, held) && a in held && b in held && a < b
    ensures a + |held[a]| <= b
  {
    hide Tiling, H.Mirror, Keeps, NoTwoFree, UsedTotal;
    HeldApart(held, heap.blocks, heap.data[..], H.HEADER, heap.Top(), a, b);
  }
}
