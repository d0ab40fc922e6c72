/** 32-bit words and their bits. */
module Words {

  type Word = bv32

  function And(a: Word, b: Word): (r: Word) { a & b }

  function Or(a: Word, b: Word): (r: Word) { a | b }

  function Minus(a: Word, b: Word): (r: Word) { a & !b }

  function Mask(i: int): (m: Word)
    requires 0 <= i < 32
  {
    1 << i
  }

  predicate Bit(w: Word, i: int)
    requires 0 <= i < 32
  {
    And(w, Mask(i)) != 0
  }

  // ----- setting and clearing bits -----

  lemma MasksApart(i: int, j: int)
    requires 0 <= i < 32 && 0 <= j < 32
    ensures Mask(i) != 0 && (i != j ==> And(Mask(i), Mask(j)) == 0)
  {
  }

  lemma OrApart(w: Word, m: Word, n: Word)
    requires And(m, n) == 0
    ensures And(Or(w, m), n) == And(w, n)
  {
  }

  lemma MinusApart(w: Word, m: Word, n: Word)
    requires And(m, n) == 0
    ensures And(Minus(w, m), n) == And(w, n)
  {
  }

  lemma OrHas(w: Word, m: Word)
    ensures And(Or(w, m), m) == m
  {
  }

  lemma MinusLacks(w: Word, m: Word)
    ensures And(Minus(w, m), m) == 0
  {
  }

  lemma MinusNothing(w: Word, m: Word)
    ensures And(w, m) == 0 ==> Minus(w, m) == w
  {
  }

  lemma SetBit(w: Word, i: int, j: int)
    requires 0 <= i < 32 && 0 <= j < 32
    ensures Bit(Or(w, Mask(i)), j) <==> i == j || Bit(w, j)
  {
    hide Mask, And, Or;
    MasksApart(i, j);
    if i == j { OrHas(w, Mask(i)); } else { OrApart(w, Mask(i), Mask(j)); }
  }

  lemma ClearBit(w: Word, i: int, j: int)
    requires 0 <= i < 32 && 0 <= j < 32
    ensures Bit(Minus(w, Mask(i)), j) <==> i != j && Bit(w, j)
  {
    hide Mask, And, Minus;
    MasksApart(i, j);
    if i == j { MinusLacks(w, Mask(i)); } else { MinusApart(w, Mask(i), Mask(j)); }
  }

  lemma SetIsNotZero(w: Word, i: int)
    requires 0 <= i < 32
    ensures Or(w, Mask(i)) != 0
  {
  }

  /** A byte stays a byte. */
  lemma ByteKept(w: Word, i: int)
    requires 0 <= i < 8 && w <= 0xff
    ensures Or(w, Mask(i)) <= 0xff && Minus(w, Mask(i)) <= 0xff
  {
  }

  lemma ByteBits(w: Word, i: int)
    requires 8 <= i < 32 && w <= 0xff
    ensures !Bit(w, i)
  {
  }

  lemma NoBits(w: Word, i: int)
    requires 0 <= i < 32
    ensures w == 0 ==> !Bit(w, i)
  {
  }

  // ----- bit by bit -----

  lemma AndBit(a: Word, b: Word, i: int)
    requires 0 <= i < 32
    ensures Bit(And(a, b), i) <==> Bit(a, i) && Bit(b, i)
  {
    hide Mask, And;
    OneBit(a, i);
    OneBit(b, i);
    AndMasks(a, b, Mask(i));
    Extremes(Mask(i));
  }

  lemma OrBit(a: Word, b: Word, i: int)
    requires 0 <= i < 32
    ensures Bit(Or(a, b), i) <==> Bit(a, i) || Bit(b, i)
  {
    hide Mask, And, Or;
    OneBit(a, i);
    OneBit(b, i);
    OrMasks(a, b, Mask(i));
    Extremes(Mask(i));
  }

  lemma MinusBit(a: Word, b: Word, i: int)
    requires 0 <= i < 32
    ensures Bit(Minus(a, b), i) <==> Bit(a, i) && !Bit(b, i)
  {
    hide Mask, And, Minus;
    OneBit(a, i);
    OneBit(b, i);
    MinusMasks(a, b, Mask(i));
    Extremes(Mask(i));
  }

  /** One bit of a word is there or not. */
  lemma OneBit(a: Word, i: int)
    requires 0 <= i < 32
    ensures And(a, Mask(i)) == 0 || And(a, Mask(i)) == Mask(i)
    ensures Mask(i) != 0
  {
  }

  lemma AndMasks(a: Word, b: Word, m: Word)
    ensures And(And(a, b), m) == And(And(a, m), And(b, m))
  {
  }

  lemma OrMasks(a: Word, b: Word, m: Word)
    ensures And(Or(a, b), m) == Or(And(a, m), And(b, m))
  {
  }

  lemma MinusMasks(a: Word, b: Word, m: Word)
    ensures And(Minus(a, b), m) == Minus(And(a, m), And(b, m))
  {
  }

  /** Nothing, and everything of one bit. */
  lemma Extremes(m: Word)
    ensures And(0, m) == And(m, 0) == And(0, 0) == 0 && And(m, m) == m
    ensures Or(0, m) == Or(m, 0) == Or(m, m) == m && Or(0, 0) == 0
    ensures Minus(0, m) == Minus(m, m) == Minus(0, 0) == 0 && Minus(m, 0) == m
  {
  }

  lemma MaskValues()
    ensures
            && Mask(0) == 0x1 && Mask(1) == 0x2 && Mask(2) == 0x4 && Mask(3) == 0x8
            && Mask(4) == 0x10 && Mask(5) == 0x20 && Mask(6) == 0x40 && Mask(7) == 0x80
            && Mask(8) == 0x100 && Mask(9) == 0x200 && Mask(10) == 0x400 && Mask(11) == 0x800
            && Mask(12) == 0x1000 && Mask(13) == 0x2000 && Mask(14) == 0x4000 && Mask(15) == 0x8000
            && Mask(16) == 0x10000 && Mask(17) == 0x20000 && Mask(18) == 0x40000 && Mask(19) == 0x80000
            && Mask(20) == 0x100000 && Mask(21) == 0x200000 && Mask(22) == 0x400000 && Mask(23) == 0x800000
            && Mask(24) == 0x1000000 && Mask(25) == 0x2000000 && Mask(26) == 0x4000000 && Mask(27) == 0x8000000
            && Mask(28) == 0x10000000 && Mask(29) == 0x20000000 && Mask(30) == 0x40000000 && Mask(31) == 0x80000000
  {
  }

  lemma SomeMask(w: Word)
    requires w != 0
    ensures
            || And(w, 0x1) != 0 || And(w, 0x2) != 0 || And(w, 0x4) != 0 || And(w, 0x8) != 0
            || And(w, 0x10) != 0 || And(w, 0x20) != 0 || And(w, 0x40) != 0 || And(w, 0x80) != 0
            || And(w, 0x100) != 0 || And(w, 0x200) != 0 || And(w, 0x400) != 0 || And(w, 0x800) != 0
            || And(w, 0x1000) != 0 || And(w, 0x2000) != 0 || And(w, 0x4000) != 0 || And(w, 0x8000) != 0
            || And(w, 0x10000) != 0 || And(w, 0x20000) != 0 || And(w, 0x40000) != 0 || And(w, 0x80000) != 0
            || And(w, 0x100000) != 0 || And(w, 0x200000) != 0 || And(w, 0x400000) != 0 || And(w, 0x800000) != 0
            || And(w, 0x1000000) != 0 || And(w, 0x2000000) != 0 || And(w, 0x4000000) != 0 || And(w, 0x8000000) != 0
            || And(w, 0x10000000) != 0 || And(w, 0x20000000) != 0 || And(w, 0x40000000) != 0 || And(w, 0x80000000) != 0
  {
  }

  /** A word that is not zero has a bit. */
  lemma SomeBit(w: Word)
    requires w != 0
    ensures exists i :: 0 <= i < 32 && Bit(w, i)
  {
    hide Mask, And;
    MaskValues();
    SomeMask(w);
    assert Bit(w, 0) || Bit(w, 1) || Bit(w, 2) || Bit(w, 3)
           || Bit(w, 4) || Bit(w, 5) || Bit(w, 6) || Bit(w, 7)
           || Bit(w, 8) || Bit(w, 9) || Bit(w, 10) || Bit(w, 11)
           || Bit(w, 12) || Bit(w, 13) || Bit(w, 14) || Bit(w, 15)
           || Bit(w, 16) || Bit(w, 17) || Bit(w, 18) || Bit(w, 19)
           || Bit(w, 20) || Bit(w, 21) || Bit(w, 22) || Bit(w, 23)
           || Bit(w, 24) || Bit(w, 25) || Bit(w, 26) || Bit(w, 27)
           || Bit(w, 28) || Bit(w, 29) || Bit(w, 30) || Bit(w, 31);
  }

  /** Words with the same bits are the same. */
  lemma SameBits(a: Word, b: Word)
    requires forall i :: 0 <= i < 32 ==> (Bit(a, i) <==> Bit(b, i))
    ensures a == b
  {
    if a != b {
      Differing(a, b);
      var w := if Minus(a, b) != 0 then Minus(a, b) else Minus(b, a);
      SomeBit(w);
      var i :| 0 <= i < 32 && Bit(w, i);
      MinusBit(a, b, i);
      MinusBit(b, a, i);
      hide And, Minus;
    }
  }

  lemma Differing(a: Word, b: Word)
    requires a != b
    ensures Minus(a, b) != 0 || Minus(b, a) != 0
  {
  }

  // ----- the lowest bit -----

  /** Bit `k` is set and none below it. */
  ghost predicate Lowest(w: Word, k: int)
    requires 0 <= k < 32
  {
    And(w, Mask(k)) != 0 && And(w, Mask(k) - 1) == 0
  }

  lemma MaskBelow(i: int, k: int)
    requires 0 <= i < k < 32
    ensures And(Mask(i), Mask(k) - 1) == Mask(i)
  {
  }

  lemma NoneBelow(w: Word, m: Word, n: Word)
    requires And(w, n) == 0 && And(m, n) == m
    ensures And(w, m) == 0
  {
  }

  lemma LowestIsFirst(w: Word, k: int)
    requires 0 <= k < 32 && Lowest(w, k)
    ensures Bit(w, k) && forall i :: 0 <= i < k ==> !Bit(w, i)
  {
    hide Mask, And;
    forall i | 0 <= i < k
      ensures !Bit(w, i)
    {
      MaskBelow(i, k);
      NoneBelow(w, Mask(i), Mask(k) - 1);
    }
  }
}
