/**
 What a client of a heap holds: pointers, and the bytes it has put behind them.

 A step of the client changes only what it names; a heap that keeps its promise keeps every byte.
 */
module HeapClients {
  import opened HeapBlocks

  type Bytes = seq<int>

  type Held = map<int, Bytes>

  /** What a client asks for: room for some bytes, which it then writes, an end to a pointer, or another size. */
  datatype Op = MallocOp(content: Bytes) | FreeOp(p: int) | ReallocOp(p: int, size: nat)

  ghost predicate SamePrefix(a: Bytes, b: Bytes) {
    forall k :: 0 <= k < |a| && k < |b| ==> a[k] == b[k]
  }

  /** A pointer to `size` bytes takes the place of `p`, beginning with the bytes that were there. */
  ghost predicate Resized(held: Held, held': Held, p: int, size: nat, q: int, content: Bytes) {
    && p in held && q !in held - {p} && |content| == size && SamePrefix(content, held[p])
    && held' == (held - {p})[q := content]
  }

  lemma ResizedIs(held: Held, p: int, q: int, content: Bytes)
    requires p in held && q !in held - {p} && SamePrefix(content, held[p])
    ensures Resized(held, (held - {p})[q := content], p, |content|, q, content)
  {
  }

  // ----- how a heap keeps what is held -----

  /** Pointer `p` begins behind the header of a used block that has room for the bytes, and they are there. */
  ghost predicate InBlock(b: Block, p: int, content: Bytes, bytes: Bytes, hdr: nat) {
    && b.used && b.at + hdr == p && 0 <= p && p + |content| <= b.end && p + |content| <= |bytes|
    && bytes[p..p + |content|] == content
  }

  ghost predicate KeptIn(blocks: Blocks, p: int, content: Bytes, bytes: Bytes, hdr: nat) {
    exists i :: 0 <= i < |blocks| && InBlock(blocks[i], p, content, bytes, hdr)
  }

  ghost predicate Keeps(held: Held, blocks: Blocks, bytes: Bytes, hdr: nat) {
    forall p :: p in held ==> KeptIn(blocks, p, held[p], bytes, hdr)
  }

  /** Used blocks other than number `except` are still there, with their bytes. */
  ghost predicate Spared(blocks: Blocks, bytes: Bytes, blocks': Blocks, bytes': Bytes, hdr: nat, except: int) {
    && |bytes'| == |bytes|
    && (forall i :: 0 <= i < |blocks| && i != except && blocks[i].used ==>
          blocks[i] in blocks' && SameBytes(blocks[i], bytes, bytes', hdr))
  }

  ghost predicate SameBytes(b: Block, bytes: Bytes, bytes': Bytes, hdr: nat) {
    && |bytes'| == |bytes|
    && forall k :: b.at + hdr <= k < b.end && 0 <= k < |bytes| ==> bytes'[k] == bytes[k]
  }

  /** What lies in spared blocks is kept. */
  lemma StillKept(p: int, content: Bytes, blocks: Blocks, bytes: Bytes, blocks': Blocks, bytes': Bytes, hdr: nat,
                  except: int)
    requires KeptIn(blocks, p, content, bytes, hdr) && Spared(blocks, bytes, blocks', bytes', hdr, except)
    requires 0 <= except < |blocks| ==> blocks[except].at + hdr != p
    ensures KeptIn(blocks', p, content, bytes', hdr)
  {
    var i :| 0 <= i < |blocks| && InBlock(blocks[i], p, content, bytes, hdr);
    assert blocks[i] in blocks' && SameBytes(blocks[i], bytes, bytes', hdr);
    var j :| 0 <= j < |blocks'| && blocks'[j] == blocks[i];
    assert bytes'[p..p + |content|] == bytes[p..p + |content|];
    assert InBlock(blocks'[j], p, content, bytes', hdr);
  }

  lemma OthersKept(held: Held, blocks: Blocks, bytes: Bytes, blocks': Blocks, bytes': Bytes, hdr: nat, except: int)
    requires Keeps(held, blocks, bytes, hdr) && Spared(blocks, bytes, blocks', bytes', hdr, except)
    ensures var gone := if 0 <= except < |blocks| then {blocks[except].at + hdr} else {};
            Keeps(held - gone, blocks', bytes', hdr)
  {
    var gone := if 0 <= except < |blocks| then {blocks[except].at + hdr} else {};
    hide KeptIn, Spared;
    forall p | p in held - gone
      ensures KeptIn(blocks', p, held[p], bytes', hdr)
    {
      StillKept(p, held[p], blocks, bytes, blocks', bytes', hdr, except);
    }
  }

  lemma OneMore(held: Held, blocks: Blocks, bytes: Bytes, hdr: nat, p: int, content: Bytes)
    requires Keeps(held, blocks, bytes, hdr) && KeptIn(blocks, p, content, bytes, hdr)
    ensures Keeps(held[p := content], blocks, bytes, hdr)
  {
    hide KeptIn;
  }

  /** A pointer held belongs to a block that is used. */
  lemma BlockOf(held: Held, blocks: Blocks, bytes: Bytes, hdr: nat, p: int) returns (i: nat)
    requires Keeps(held, blocks, bytes, hdr) && p in held
    ensures i < |blocks| && InBlock(blocks[i], p, held[p], bytes, hdr)
  {
    assert KeptIn(blocks, p, held[p], bytes, hdr);
    i :| 0 <= i < |blocks| && InBlock(blocks[i], p, held[p], bytes, hdr);
  }

  /** A free block is not held. */
  lemma FreeNotHeld(held: Held, blocks: Blocks, bytes: Bytes, hdr: nat, top: int, i: nat)
    requires Keeps(held, blocks, bytes, hdr) && Tiling(blocks, top, hdr) && hdr > 0 && i < |blocks| && !blocks[i].used
    ensures blocks[i].at + hdr !in held
  {
    hide KeptIn, Tiling;
    var p := blocks[i].at + hdr;
    if p in held {
      var j := BlockOf(held, blocks, bytes, hdr, p);
      OffsetOrder(blocks, top, hdr, i, j);
      assert false;
    }
  }

  /** What is held does not overlap. */
  lemma HeldApart(held: Held, blocks: Blocks, bytes: Bytes, hdr: nat, top: int, a: int, b: int)
    requires Keeps(held, blocks, bytes, hdr) && Tiling(blocks, top, hdr) && a in held && b in held && a < b
    ensures a + |held[a]| <= b
  {
    hide KeptIn, Tiling;
    var i := BlockOf(held, blocks, bytes, hdr, a);
    var j := BlockOf(held, blocks, bytes, hdr, b);
    Disjoint(blocks, top, hdr, i, j);
    BlockGrows(blocks, top, hdr, j);
  }

  lemma BlockGrows(blocks: Blocks, top: int, hdr: nat, j: nat)
    requires Tiling(blocks, top, hdr) && j < |blocks|
    ensures blocks[j].at + hdr <= blocks[j].end
  {
    assert Aligned(blocks[j], hdr);
  }

  /** Writing into one block leaves the others alone. */
  lemma WriteSpares(blocks: Blocks, bytes: Bytes, bytes': Bytes, hdr: nat, top: int, i: nat, p: int, n: nat)
    requires Tiling(blocks, top, hdr) && i < |blocks| && blocks[i].at + hdr == p && p + n <= blocks[i].end
    requires |bytes'| == |bytes| && forall k :: 0 <= k < |bytes| && !(p <= k < p + n) ==> bytes'[k] == bytes[k]
    ensures Spared(blocks, bytes, blocks, bytes', hdr, i)
  {
    hide Tiling;
    forall j | 0 <= j < |blocks| && j != i && blocks[j].used
      ensures blocks[j] in blocks && SameBytes(blocks[j], bytes, bytes', hdr)
    {
      Disjoint(blocks, top, hdr, i, j);
      BlockGrows(blocks, top, hdr, j);
      BlockGrows(blocks, top, hdr, i);
    }
  }

  // ----- bytes that are carried over -----

  lemma ShorterPrefix(bytes': Bytes, bytes: Bytes, q: int, p: int, m: nat, n: nat)
    requires n <= m && 0 <= q && q + m <= |bytes'| && 0 <= p && p + m <= |bytes| && bytes'[q..q + m] == bytes[p..p + m]
    ensures bytes'[q..q + n] == bytes[p..p + n]
  {
    assert bytes'[q..q + n] == bytes'[q..q + m][..n] && bytes[p..p + n] == bytes[p..p + m][..n];
  }

  lemma PrefixKept(before: Bytes, after: Bytes, bytes: Bytes, bytes': Bytes, p: int, q: int, n: nat)
    requires 0 <= p && p + |before| <= |bytes| && before == bytes[p..p + |before|]
    requires 0 <= q && q + |after| <= |bytes'| && after == bytes'[q..q + |after|]
    requires n == if |before| < |after| then |before| else |after|
    requires bytes'[q..q + n] == bytes[p..p + n]
    ensures SamePrefix(after, before)
  {
    forall k | 0 <= k < |after| && k < |before|
      ensures after[k] == before[k]
    {
      assert after[k] == bytes'[q..q + n][k] && before[k] == bytes[p..p + n][k];
    }
  }

  // ----- nothing is lost -----

  /** The used blocks are those that others use, and one for each pointer held. */
  ghost predicate Backed(held: Held, blocks: Blocks, others: set<Block>, hdr: nat) {
    && others <= Used(blocks)
    && (forall b :: b in others ==> b.at + hdr !in held)
    && (forall b :: b in Used(blocks) && b !in others ==> b.at + hdr in held)
  }

  lemma NothingBacked(blocks: Blocks, hdr: nat)
    ensures Backed(map[], blocks, Used(blocks), hdr)
  {
  }

  lemma BackedGiven(held: Held, blocks: Blocks, blocks': Blocks, others: set<Block>, hdr: nat, top: int, i: nat,
                    new_: Block, content: Bytes)
    requires Backed(held, blocks, others, hdr) && Tiling(blocks, top, hdr) && hdr > 0
    requires i < |blocks| && !blocks[i].used && new_.at == blocks[i].at && Used(blocks') == Used(blocks) + {new_}
    ensures Backed(held[new_.at + hdr := content], blocks', others, hdr)
  {
    hide Tiling;
    forall b | b in others
      ensures b.at != new_.at
    {
      assert b in Used(blocks);
      if b.at == new_.at { OneAt(blocks, top, hdr, b, blocks[i]); }
    }
  }

  lemma BackedFreed(held: Held, blocks: Blocks, blocks': Blocks, others: set<Block>, hdr: nat, top: int, i: nat)
    requires Backed(held, blocks, others, hdr) && Tiling(blocks, top, hdr) && hdr > 0
    requires i < |blocks| && blocks[i].at + hdr in held && Used(blocks') == Used(blocks) - {blocks[i]}
    ensures Backed(held - {blocks[i].at + hdr}, blocks', others, hdr)
  {
    hide Tiling;
    forall b | b in Used(blocks') && b !in others
      ensures b.at != blocks[i].at
    {
      assert b in Used(blocks);
      if b.at == blocks[i].at { OneAt(blocks, top, hdr, b, blocks[i]); }
    }
  }

  lemma BackedChanged(held: Held, blocks: Blocks, blocks': Blocks, others: set<Block>, hdr: nat, top: int, i: nat,
                      new_: Block, content: Bytes)
    requires Backed(held, blocks, others, hdr) && Tiling(blocks, top, hdr) && hdr > 0
    requires i < |blocks| && blocks[i].at + hdr in held && new_.at == blocks[i].at
    requires Used(blocks') == Used(blocks) - {blocks[i]} + {new_}
    ensures Backed((held - {blocks[i].at + hdr})[new_.at + hdr := content], blocks', others, hdr)
  {
    hide Tiling;
    forall b | b in Used(blocks') && b !in others && b != new_
      ensures b.at != blocks[i].at
    {
      assert b in Used(blocks);
      if b.at == blocks[i].at { OneAt(blocks, top, hdr, b, blocks[i]); }
    }
  }

  /** A client that has given everything back leaves the blocks as it found them. */
  lemma AsItWas(blocks: Blocks, blocks': Blocks, hdr: nat, top: int)
    requires Backed(map[], blocks', Used(blocks), hdr) && hdr > 0
    requires Tiling(blocks, top, hdr) && Tiling(blocks', top, hdr) && NoTwoFree(blocks) && NoTwoFree(blocks')
    ensures blocks' == blocks
  {
    UsedDetermines(blocks, blocks', top, hdr);
  }
}
