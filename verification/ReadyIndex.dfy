/** The bitmaps that index the ready queues, flat for up to 32 priorities, in two levels for up to 256. */
module ReadyIndex {

  import opened Words

  // ----- the first bit set -----

  /**
   The 256 entries of __lowest_bit_bitmap, by row and column.

   All sixteen rows are alike but for their first entries.
   */
  function LowestBitBitmap(b: Word): (r: int)
    requires b <= 0xff
    ensures 0 <= r < 8
  {
    var row, column := b >> 4, b & 0xf;
    if column == 0 then
      if row == 0 then 0 else if row == 1 then 4 else if row == 2 then 5 else if row == 3 then 4
      else if row == 4 then 6 else if row == 5 then 4 else if row == 6 then 5 else if row == 7 then 4
      else if row == 8 then 7 else if row == 9 then 4 else if row == 10 then 5 else if row == 11 then 4
      else if row == 12 then 6 else if row == 13 then 4 else if row == 14 then 5 else 4
    else
      if column == 1 then 0 else if column == 2 then 1 else if column == 3 then 0
      else if column == 4 then 2 else if column == 5 then 0 else if column == 6 then 1 else if column == 7 then 0
      else if column == 8 then 3 else if column == 9 then 0 else if column == 10 then 1 else if column == 11 then 0
      else if column == 12 then 2 else if column == 13 then 0 else if column == 14 then 1 else 0
  }

  /** __rt_ffs. */
  function Ffs(w: Word): (r: int) {
    if w == 0 then 0
    else if w & 0xff != 0 then LowestBitBitmap(w & 0xff) + 1
    else if w & 0xff00 != 0 then LowestBitBitmap((w & 0xff00) >> 8) + 9
    else if w & 0xff0000 != 0 then LowestBitBitmap((w & 0xff0000) >> 16) + 17
    else LowestBitBitmap((w & 0xff000000) >> 24) + 25
  }

  /** The table entry of a byte that is not zero is its lowest bit. */
  lemma TableEntry(b: Word)
    requires 0 < b <= 0xff
    ensures b & Mask(LowestBitBitmap(b)) != 0 && b & (Mask(LowestBitBitmap(b)) - 1) == 0
  {
  }

  lemma Byte0(w: Word, k: int)
    requires 0 <= k < 8 && (w & 0xff) & Mask(k) != 0 && (w & 0xff) & (Mask(k) - 1) == 0
    ensures Lowest(w, k)
  {
  }

  lemma Byte8(w: Word, k: int)
    requires 0 <= k < 8 && w & 0xff == 0 && ((w & 0xff00) >> 8) & Mask(k) != 0
             && ((w & 0xff00) >> 8) & (Mask(k) - 1) == 0
    ensures Lowest(w, k + 8)
  {
  }

  lemma Byte16(w: Word, k: int)
    requires 0 <= k < 8 && w & 0xffff == 0 && ((w & 0xff0000) >> 16) & Mask(k) != 0
             && ((w & 0xff0000) >> 16) & (Mask(k) - 1) == 0
    ensures Lowest(w, k + 16)
  {
  }

  lemma Byte24(w: Word, k: int)
    requires 0 <= k < 8 && w & 0xffffff == 0 && ((w & 0xff000000) >> 24) & Mask(k) != 0
             && ((w & 0xff000000) >> 24) & (Mask(k) - 1) == 0
    ensures Lowest(w, k + 24)
  {
  }

  lemma Case0(w: Word)
    requires w & 0xff != 0
    ensures 1 <= Ffs(w) <= 8 && Lowest(w, Ffs(w) - 1)
  {
    hide LowestBitBitmap, Mask, Lowest, And;
    TableEntry(w & 0xff);
    Byte0(w, LowestBitBitmap(w & 0xff));
  }

  lemma Case8(w: Word)
    requires w & 0xff == 0 && w & 0xff00 != 0
    ensures 9 <= Ffs(w) <= 16 && Lowest(w, Ffs(w) - 1)
  {
    hide LowestBitBitmap, Mask, Lowest, And;
    TableEntry((w & 0xff00) >> 8);
    Byte8(w, LowestBitBitmap((w & 0xff00) >> 8));
  }

  lemma Case16(w: Word)
    requires w & 0xff == 0 && w & 0xff00 == 0 && w & 0xff0000 != 0
    ensures 17 <= Ffs(w) <= 24 && Lowest(w, Ffs(w) - 1)
  {
    hide LowestBitBitmap, Mask, Lowest, And;
    TableEntry((w & 0xff0000) >> 16);
    Byte16(w, LowestBitBitmap((w & 0xff0000) >> 16));
  }

  lemma Case24(w: Word)
    requires w != 0 && w & 0xff == 0 && w & 0xff00 == 0 && w & 0xff0000 == 0
    ensures 25 <= Ffs(w) <= 32 && Lowest(w, Ffs(w) - 1)
  {
    hide LowestBitBitmap, Mask, Lowest, And;
    TableEntry((w & 0xff000000) >> 24);
    Byte24(w, LowestBitBitmap((w & 0xff000000) >> 24));
  }

  lemma FfsIsLowest(w: Word)
    ensures w == 0 <==> Ffs(w) == 0
    ensures w != 0 ==> 1 <= Ffs(w) <= 32 && Lowest(w, Ffs(w) - 1)
  {
    hide Ffs, Mask, Lowest, And;
    if w == 0 {
      assert Ffs(0) == 0 by { FfsOfZero(); }
    } else if w & 0xff != 0 {
      Case0(w);
    } else if w & 0xff00 != 0 {
      Case8(w);
    } else if w & 0xff0000 != 0 {
      Case16(w);
    } else {
      Case24(w);
    }
  }

  lemma FfsOfZero()
    ensures Ffs(0) == 0
  {
  }

  /** The first bit set is the only position with a set bit and no set bit below it. */
  lemma FfsIsFirst(w: Word)
    ensures w == 0 <==> Ffs(w) == 0
    ensures w != 0 ==> 1 <= Ffs(w) <= 32 && Bit(w, Ffs(w) - 1) && forall i :: 0 <= i < Ffs(w) - 1 ==> !Bit(w, i)
  {
    hide LowestBitBitmap, Mask, Ffs, Bit, Lowest;
    FfsIsLowest(w);
    if w != 0 { LowestIsFirst(w, Ffs(w) - 1); }
  }

  // ----- the index -----

  /** rt_thread_ready_priority_group, and with more than 32 priorities rt_thread_ready_table of bytes. */
  datatype Index = Flat(group: Word) | TwoLevel(group: Word, table: seq<Word>)

  function Limit(x: Index): (n: int) {
    if x.Flat? then 32 else 256
  }

  /** In two levels, the group has a bit for every byte that is not zero. */
  ghost predicate Good(x: Index) {
    x.TwoLevel? ==>
      && |x.table| == 32
      && forall n :: 0 <= n < 32 ==> x.table[n] <= 0xff && (Bit(x.group, n) <==> x.table[n] != 0)
  }

  /** The index says that queue `p` has threads. */
  predicate Has(x: Index, p: int)
    requires Good(x) && 0 <= p < Limit(x)
  {
    if x.Flat? then Bit(x.group, p) else Bit(x.table[p / 8], p % 8)
  }

  /** As rt_schedule_insert_thread marks a priority. */
  function Marked(x: Index, p: int): (r: Index)
    requires Good(x) && 0 <= p < Limit(x)
  {
    if x.Flat? then Flat(Or(x.group, Mask(p)))
    else TwoLevel(Or(x.group, Mask(p / 8)), x.table[p / 8 := Or(x.table[p / 8], Mask(p % 8))])
  }

  /** As rt_schedule_remove_thread clears the mark of a priority. */
  function Cleared(x: Index, p: int): (r: Index)
    requires Good(x) && 0 <= p < Limit(x)
  {
    if x.Flat? then Flat(Minus(x.group, Mask(p)))
    else
      var table := x.table[p / 8 := Minus(x.table[p / 8], Mask(p % 8))];
      TwoLevel(if table[p / 8] == 0 then Minus(x.group, Mask(p / 8)) else x.group, table)
  }

  /** As _get_highest_priority_thread finds the most urgent priority. */
  function Highest(x: Index): (p: int)
    requires Good(x) && x.group != 0
  {
    hide LowestBitBitmap, Mask, Ffs, And, Lowest;
    FfsIsFirst(x.group);
    if x.Flat? then Ffs(x.group) - 1
    else
      var number := Ffs(x.group) - 1;
      number * 8 + Ffs(x.table[number]) - 1
  }

  lemma MarkedIsGood(x: Index, p: int)
    requires Good(x) && 0 <= p < Limit(x)
    ensures Good(Marked(x, p))
  {
    hide Mask, And, Or, Bit;
    if x.TwoLevel? {
      var r, n := Marked(x, p), p / 8;
      ByteKept(x.table[n], p % 8);
      SetIsNotZero(x.table[n], p % 8);
      forall m | 0 <= m < 32
        ensures r.table[m] <= 0xff && (Bit(r.group, m) <==> r.table[m] != 0)
      {
        SetBit(x.group, n, m);
      }
    }
  }

  lemma MarkedHas(x: Index, p: int, q: int)
    requires Good(x) && 0 <= p < Limit(x) && 0 <= q < Limit(x)
    ensures Good(Marked(x, p)) && (Has(Marked(x, p), q) <==> q == p || Has(x, q))
  {
    hide Mask, And, Or, Bit;
    MarkedIsGood(x, p);
    if x.Flat? {
      SetBit(x.group, p, q);
    } else if p / 8 == q / 8 {
      SetBit(x.table[p / 8], p % 8, q % 8);
    }
  }

  lemma ClearedIsGood(x: Index, p: int)
    requires Good(x) && 0 <= p < Limit(x)
    ensures Good(Cleared(x, p))
  {
    hide Mask, And, Minus, Bit;
    if x.TwoLevel? {
      var r, n := Cleared(x, p), p / 8;
      ByteKept(x.table[n], p % 8);
      ClearKeepsZero(x.table[n], p % 8);
      forall m | 0 <= m < 32
        ensures r.table[m] <= 0xff && (Bit(r.group, m) <==> r.table[m] != 0)
      {
        ClearBit(x.group, n, m);
      }
    }
  }

  lemma ClearKeepsZero(w: Word, i: int)
    requires 0 <= i < 32
    ensures w == 0 ==> Minus(w, Mask(i)) == 0
  {
  }

  lemma ClearedHas(x: Index, p: int, q: int)
    requires Good(x) && 0 <= p < Limit(x) && 0 <= q < Limit(x)
    ensures Good(Cleared(x, p)) && (Has(Cleared(x, p), q) <==> q != p && Has(x, q))
  {
    hide Mask, And, Minus, Bit;
    ClearedIsGood(x, p);
    if x.Flat? {
      ClearBit(x.group, p, q);
    } else if p / 8 == q / 8 {
      ClearBit(x.table[p / 8], p % 8, q % 8);
    }
  }

  /** Clearing a mark that is not there changes nothing. */
  lemma ClearedAlready(x: Index, p: int)
    requires Good(x) && 0 <= p < Limit(x) && !Has(x, p)
    ensures Cleared(x, p) == x
  {
    hide Mask, And, Minus;
    if x.Flat? {
      MinusNothing(x.group, Mask(p));
    } else {
      MinusNothing(x.table[p / 8], Mask(p % 8));
      if x.table[p / 8] == 0 { MinusNothing(x.group, Mask(p / 8)); }
    }
  }

  lemma ByteFfs(w: Word)
    requires 0 < w <= 0xff
    ensures 1 <= Ffs(w) <= 8 && Bit(w, Ffs(w) - 1) && forall i :: 0 <= i < Ffs(w) - 1 ==> !Bit(w, i)
  {
    hide LowestBitBitmap, Mask, Ffs, And, Lowest, Bit;
    FfsIsFirst(w);
    if Ffs(w) > 8 { ByteBits(w, Ffs(w) - 1); }
  }

  /** With any mark at all, the priority found is marked and no more urgent one is. */
  lemma HighestIsLeast(x: Index)
    requires Good(x) && x.group != 0
    ensures 0 <= Highest(x) < Limit(x) && Has(x, Highest(x))
    ensures forall q :: 0 <= q < Highest(x) ==> !Has(x, q)
  {
    hide LowestBitBitmap, Mask, Ffs, And, Lowest, Bit;
    FfsIsFirst(x.group);
    if x.TwoLevel? {
      var number := Ffs(x.group) - 1;
      ByteFfs(x.table[number]);
      forall q | 0 <= q < Highest(x)
        ensures !Has(x, q)
      {
        if q / 8 < number { NoBits(x.table[q / 8], q % 8); }
      }
    }
  }

  /** The group is zero exactly if nothing is marked. */
  lemma NothingMarked(x: Index)
    requires Good(x)
    ensures x.group == 0 <==> forall p :: 0 <= p < Limit(x) ==> !Has(x, p)
  {
    hide Mask, And, Bit;
    if x.group != 0 {
      HighestIsLeast(x);
    } else {
      forall p | 0 <= p < Limit(x)
        ensures !Has(x, p)
      {
        if x.Flat? { NoBits(x.group, p); } else { NoBits(x.group, p / 8); NoBits(x.table[p / 8], p % 8); }
      }
    }
  }
}
